/** The read queries of the stakeholder repository, as relational
    expressions over the two tables. */
module StakeholderQueries {
  import opened Wrappers
  import opened Schema
  import Seqs
  import Text
  import Ordering
  import opened Pagination

  /** The `{ stakeholders, count }` envelope of a listing. */
  datatype Listing = Listing(stakeholders: seq<Stakeholder>, count: nat)

  // ---------------------------------------------------------------------
  // Joins between `stakeholder s` and `stakeholder_relation sr`

  /** The ON condition of a join: `s.id = sr.child_id`, `s.id = sr.parent_id`,
      or either of the two. */
  datatype On = OnChild | OnParent | OnEither

  predicate Joins(id: Uuid, e: Edge, on: On) {
    match on
    case OnChild => id == e.childId
    case OnParent => id == e.parentId
    case OnEither => id == e.childId || id == e.parentId
  }

  function JoinsWith(id: Uuid, on: On): Edge -> bool {
    (e: Edge) => Joins(id, e, on)
  }

  /** The edges a stakeholder with id `id` is paired with, in table order. */
  function Matching(es: seq<Edge>, id: Uuid, on: On): seq<Edge> {
    Seqs.Filter(es, JoinsWith(id, on))
  }

  /** A row of a join; `edge` is `None` in a LEFT JOIN row that found no edge
      (its `sr.*` columns are NULL). */
  datatype JoinRow = JoinRow(s: Stakeholder, edge: Option<Edge>)

  function Pairs(s: Stakeholder, es: seq<Edge>): seq<JoinRow> {
    seq(|es|, k requires 0 <= k < |es| => JoinRow(s, Some(es[k])))
  }

  /** The rows one stakeholder contributes to a join: one per matching edge,
      or, for a LEFT JOIN without a match, one row with no edge. */
  function Block(s: Stakeholder, es: seq<Edge>, on: On, outer: bool): (b: seq<JoinRow>)
    ensures forall r :: r in b ==> r.s == s
  {
    var m := Matching(es, s.id, on);
    if outer && m == [] then [JoinRow(s, None)] else Pairs(s, m)
  }

  /** `stakeholder s JOIN stakeholder_relation sr ON …` (a LEFT JOIN when
      `outer`). */
  function Join(ss: seq<Stakeholder>, es: seq<Edge>, on: On, outer: bool): seq<JoinRow> {
    if ss == [] then [] else Block(ss[0], es, on, outer) + Join(ss[1..], es, on, outer)
  }

  /** `.where('s.id', id)` on join rows. */
  function IdIs(id: Uuid): JoinRow -> bool {
    (r: JoinRow) => r.s.id == id
  }

  /** `.whereNull('sr.child_id')` on join rows. */
  function NoEdge(): JoinRow -> bool {
    (r: JoinRow) => r.edge.None?
  }

  /** `select('s.*')` */
  function StakeholderColumns(rows: seq<JoinRow>): seq<Stakeholder> {
    seq(|rows|, k requires 0 <= k < |rows| => rows[k].s)
  }

  /** The `sr.*` columns of the rows that have an edge. */
  function EdgeColumns(rows: seq<JoinRow>): seq<Edge> {
    if rows == [] then []
    else (if rows[0].edge.Some? then [rows[0].edge.value] else []) + EdgeColumns(rows[1..])
  }

  lemma StakeholderColumnsAppend(a: seq<JoinRow>, b: seq<JoinRow>)
    ensures StakeholderColumns(a + b) == StakeholderColumns(a) + StakeholderColumns(b)
  {
  }

  lemma {:induction false} EdgeColumnsPairs(s: Stakeholder, es: seq<Edge>)
    ensures EdgeColumns(Pairs(s, es)) == es
  {
    if es != [] {
      assert Pairs(s, es)[1..] == Pairs(s, es[1..]);
      EdgeColumnsPairs(s, es[1..]);
      assert es == [es[0]] + es[1..];
    }
  }

  /** WHERE s.id = id on a join: under the primary key only the block of the
      stakeholder with that id survives, and nothing when there is none. */
  lemma {:induction false} WhereIdJoin(ss: seq<Stakeholder>, es: seq<Edge>, on: On, outer: bool, id: Uuid)
    requires UniqueIds(ss)
    ensures Seqs.Filter(Join(ss, es, on, outer), IdIs(id))
            == match Find(ss, id) case Some(s) => Block(s, es, on, outer) case None => []
  {
    if ss != [] {
      var s := ss[0];
      var head := Block(s, es, on, outer);
      var tail := Join(ss[1..], es, on, outer);
      assert Join(ss, es, on, outer) == head + tail;
      Seqs.FilterAppend(head, tail, IdIs(id));
      BlockWhereId(s, es, on, outer, id);
      UniqueIdsTail(ss);
      WhereIdJoin(ss[1..], es, on, outer, id);
      if s.id == id {
        assert Find(ss[1..], id).None?;
      }
    }
  }

  /** One stakeholder's block survives WHERE s.id = id whole or not at all. */
  lemma BlockWhereId(s: Stakeholder, es: seq<Edge>, on: On, outer: bool, id: Uuid)
    ensures Seqs.Filter(Block(s, es, on, outer), IdIs(id)) == if s.id == id then Block(s, es, on, outer) else []
  {
    if s.id == id {
      Seqs.FilterAll(Block(s, es, on, outer), IdIs(id));
    } else {
      Seqs.FilterNone(Block(s, es, on, outer), IdIs(id));
    }
  }

  // ---------------------------------------------------------------------
  // getAllStakeholders

  /** No edge has `id` as its child. */
  predicate IsRoot(t: Tables, id: Uuid) {
    forall e :: e in t.relations ==> e.childId != id
  }

  /** Lines 51-55: the rows of `s LEFT JOIN sr ON s.id = sr.child_id WHERE
      sr.child_id IS NULL`. */
  function RootRows(t: Tables): seq<Stakeholder> {
    StakeholderColumns(Seqs.Filter(Join(t.stakeholders, t.relations, OnChild, true), NoEdge()))
  }

  /** The whole root result in ORDER BY org_name order, before any LIMIT. */
  function RootListing(t: Tables): (r: seq<Stakeholder>)
    ensures Ordering.Sorted(r)
  {
    Ordering.SortByOrgName(RootRows(t))
  }

  /** Lines 49-75. The count is that of the whole table. */
  function GetAllStakeholders(t: Tables, opts: Option<LimitOptions>): (r: Listing)
    ensures |r.stakeholders| <= |RootListing(t)|
    ensures r.count == |t.stakeholders|
  {
    Listing(Paginate(RootListing(t), ListingWindow(opts)), |t.stakeholders|)
  }

  /** No edge of `es` has the stakeholder as its child. */
  function Unparented(es: seq<Edge>): Stakeholder -> bool {
    (s: Stakeholder) => forall e :: e in es ==> e.childId != s.id
  }

  /** The LEFT JOIN plus the NULL test select each stakeholder without a
      parent edge exactly once, in table order, however many edges the
      others have. */
  lemma {:induction false} RootRowsAreUnparented(ss: seq<Stakeholder>, es: seq<Edge>)
    ensures StakeholderColumns(Seqs.Filter(Join(ss, es, OnChild, true), NoEdge()))
            == Seqs.Filter(ss, Unparented(es))
  {
    if ss != [] {
      var s := ss[0];
      var m := Matching(es, s.id, OnChild);
      Seqs.FilterMembers(es, JoinsWith(s.id, OnChild));
      var head := Block(s, es, OnChild, true);
      var tail := Join(ss[1..], es, OnChild, true);
      Seqs.FilterAppend(head, tail, NoEdge());
      StakeholderColumnsAppend(Seqs.Filter(head, NoEdge()), Seqs.Filter(tail, NoEdge()));
      RootRowsAreUnparented(ss[1..], es);
      if m == [] {
        assert Unparented(es)(s) by {
          forall e | e in es ensures e.childId != s.id {
            assert e !in m;
          }
        }
        Seqs.FilterAll(head, NoEdge());
        assert StakeholderColumns(head) == [s];
      } else {
        assert m[0] in m;
        assert !Unparented(es)(s);
        Seqs.FilterNone(head, NoEdge());
      }
    }
  }

  /** The root listing holds each stored stakeholder that is nobody's child
      exactly once, and nothing else, in org_name order. */
  lemma RootListingSpec(t: Tables)
    requires UniqueIds(t.stakeholders)
    ensures Ordering.Sorted(RootListing(t))
    ensures forall x :: multiset(RootListing(t))[x]
                        == if x in t.stakeholders && IsRoot(t, x.id) then 1 else 0
  {
    RootRowsAreUnparented(t.stakeholders, t.relations);
    Seqs.FilterMultiset(t.stakeholders, Unparented(t.relations));
    UniqueIdsMultiplicity(t.stakeholders);
  }

  /** A page of getAllStakeholders is a prefix of the root listing (no OFFSET
      is ever applied); its length is the effective limit, which is `offset`
      when that is truthy, else `limit` when truthy, else unbounded; the count
      does not depend on the pagination. */
  lemma GetAllStakeholdersPage(t: Tables, opts: Option<LimitOptions>, other: Option<LimitOptions>)
    ensures var page := GetAllStakeholders(t, opts).stakeholders;
            && page == RootListing(t)[..|page|]
            && |page| == (match ListingWindow(opts).limit
                          case Some(n) => Min(n, |RootListing(t)|)
                          case None => |RootListing(t)|)
            && Ordering.Sorted(page)
    ensures GetAllStakeholders(t, opts).count == GetAllStakeholders(t, other).count
  {
    var page := GetAllStakeholders(t, opts).stakeholders;
    Ordering.SortedSlice(RootListing(t), 0, |page|);
  }

  // ---------------------------------------------------------------------
  // getAllStakeholdersById

  function HasId(id: Uuid): Stakeholder -> bool {
    (s: Stakeholder) => s.id == id
  }

  /** `count(*) from stakeholder where id = ?`. */
  function CountWithId(ss: seq<Stakeholder>, id: Uuid): nat {
    |Seqs.Filter(ss, HasId(id))|
  }

  lemma CountWithIdSpec(ss: seq<Stakeholder>, id: Uuid)
    requires UniqueIds(ss)
    ensures CountWithId(ss, id) == if Find(ss, id).Some? then 1 else 0
  {
    var f := Seqs.Filter(ss, HasId(id));
    Seqs.FilterMultiset(ss, HasId(id));
    UniqueIdsMultiplicity(ss);
    assert |multiset(f)| == |f|;
    match Find(ss, id)
    case Some(s) =>
      forall x ensures multiset(f)[x] == multiset{s}[x] {
        if x in ss && x.id == id {
          FindStored(ss, x);
        }
      }
      assert multiset(f) == multiset{s};
    case None =>
      assert multiset(f) == multiset{};
  }

  /** Lines 79-84: `s LEFT JOIN sr ON s.id = sr.child_id WHERE s.id = id`. */
  function ByIdRows(t: Tables, id: Uuid): seq<Stakeholder> {
    StakeholderColumns(Seqs.Filter(Join(t.stakeholders, t.relations, OnChild, true), IdIs(id)))
  }

  /** Lines 77-102. */
  function GetAllStakeholdersById(t: Tables, id: Uuid, opts: Option<LimitOptions>): (r: Listing)
    ensures |r.stakeholders| <= |ByIdRows(t, id)|
  {
    Listing(Paginate(Ordering.SortByOrgName(ByIdRows(t, id)), ListingWindow(opts)),
            CountWithId(t.stakeholders, id))
  }

  /** The stakeholder with the given id once per edge in which it is the
      child, or once if it has none, and nothing when no such stakeholder
      exists; the count is 0 or 1. */
  lemma ByIdRowsSpec(t: Tables, id: Uuid)
    requires UniqueIds(t.stakeholders)
    ensures Find(t.stakeholders, id).None? ==> ByIdRows(t, id) == []
    ensures Find(t.stakeholders, id).Some? ==>
              var s := Find(t.stakeholders, id).value;
              var incoming := |Matching(t.relations, id, OnChild)|;
              && |ByIdRows(t, id)| == (if incoming == 0 then 1 else incoming)
              && forall k :: 0 <= k < |ByIdRows(t, id)| ==> ByIdRows(t, id)[k] == s
    ensures GetAllStakeholdersById(t, id, None).count == if Find(t.stakeholders, id).Some? then 1 else 0
  {
    WhereIdJoin(t.stakeholders, t.relations, OnChild, true, id);
    CountWithIdSpec(t.stakeholders, id);
  }

  /** Every row of a by-id page is the addressed stakeholder. */
  lemma GetAllStakeholdersByIdSpec(t: Tables, id: Uuid, opts: Option<LimitOptions>)
    requires UniqueIds(t.stakeholders)
    ensures var r := GetAllStakeholdersById(t, id, opts);
            && (forall x :: x in r.stakeholders ==> x.id == id && x in t.stakeholders)
            && r.count <= 1
            && (Find(t.stakeholders, id).None? ==> r.stakeholders == [] && r.count == 0)
    ensures |GetAllStakeholdersById(t, id, opts).stakeholders|
            == match ListingWindow(opts).limit
               case Some(n) => Min(n, |ByIdRows(t, id)|)
               case None => |ByIdRows(t, id)|
  {
    ByIdRowsSpec(t, id);
    var rows := ByIdRows(t, id);
    var sorted := Ordering.SortByOrgName(rows);
    var r := GetAllStakeholdersById(t, id, opts);
    forall x | x in r.stakeholders ensures x.id == id && x in t.stakeholders {
      assert x in sorted;
      assert x in multiset(rows);
    }
    CountWithIdSpec(t.stakeholders, id);
  }

  // ---------------------------------------------------------------------
  // getParentIds / getParents, getChildrenIds / getChildren

  function ParentColumn(es: seq<Edge>): seq<Uuid> {
    seq(|es|, k requires 0 <= k < |es| => es[k].parentId)
  }

  function ChildColumn(es: seq<Edge>): seq<Uuid> {
    seq(|es|, k requires 0 <= k < |es| => es[k].childId)
  }

  /** The edges of the inner join `s JOIN sr ON …` restricted to `s.id = id`. */
  function JoinedEdges(t: Tables, id: Uuid, on: On): seq<Edge> {
    EdgeColumns(Seqs.Filter(Join(t.stakeholders, t.relations, on, false), IdIs(id)))
  }

  /** Under the primary key the inner join restricted to one id yields the
      edges that match it, in table order, or nothing when the id is not
      stored. */
  lemma JoinedEdgesSpec(t: Tables, id: Uuid, on: On)
    requires UniqueIds(t.stakeholders)
    ensures JoinedEdges(t, id, on)
            == if Find(t.stakeholders, id).Some? then Matching(t.relations, id, on) else []
  {
    WhereIdJoin(t.stakeholders, t.relations, on, false, id);
    if Find(t.stakeholders, id).Some? {
      EdgeColumnsPairs(Find(t.stakeholders, id).value, Matching(t.relations, id, on));
    }
  }

  /** Lines 127-135: `select sr.parent_id from s JOIN sr ON s.id = sr.child_id
      where s.id = id`. */
  function GetParentIds(t: Tables, id: Uuid): (r: seq<Uuid>)
    ensures |r| == |JoinedEdges(t, id, OnChild)|
  {
    ParentColumn(JoinedEdges(t, id, OnChild))
  }

  /** Lines 150-158: `select sr.child_id from s JOIN sr ON s.id = sr.parent_id
      where s.id = id`. */
  function GetChildrenIds(t: Tables, id: Uuid): (r: seq<Uuid>)
    ensures |r| == |JoinedEdges(t, id, OnParent)|
  {
    ChildColumn(JoinedEdges(t, id, OnParent))
  }

  /** An edge `parent -> child` is stored and the child is a stored
      stakeholder. */
  predicate ParentOf(t: Tables, parent: Uuid, child: Uuid) {
    Find(t.stakeholders, child).Some? && HasEdge(t.relations, parent, child)
  }

  /** Some stored edge runs from `parent` to `child`. */
  predicate HasEdge(es: seq<Edge>, parent: Uuid, child: Uuid) {
    exists e :: e in es && e.parentId == parent && e.childId == child
  }

  /** The parent ids of `id`: one entry per edge whose child is `id`, in
      table order, duplicates kept; empty when the id is not stored. */
  lemma GetParentIdsSpec(t: Tables, id: Uuid)
    requires UniqueIds(t.stakeholders)
    ensures var r := GetParentIds(t, id);
            var incoming := Matching(t.relations, id, OnChild);
            && (Find(t.stakeholders, id).None? ==> r == [])
            && (Find(t.stakeholders, id).Some? ==>
                  |r| == |incoming| && forall k :: 0 <= k < |r| ==> r[k] == incoming[k].parentId)
            && forall p :: p in r <==> ParentOf(t, p, id)
  {
    JoinedEdgesSpec(t, id, OnChild);
    Seqs.FilterMembers(t.relations, JoinsWith(id, OnChild));
    var r := GetParentIds(t, id);
    forall p ensures p in r <==> ParentOf(t, p, id) {
      if p in r {
        var k :| 0 <= k < |r| && r[k] == p;
        assert Matching(t.relations, id, OnChild)[k] in Matching(t.relations, id, OnChild);
      }
      if ParentOf(t, p, id) {
        var e :| e in t.relations && e.parentId == p && e.childId == id;
        var incoming := Matching(t.relations, id, OnChild);
        assert e in incoming;
        var k :| 0 <= k < |incoming| && incoming[k] == e;
        assert r[k] == p;
      }
    }
  }

  /** The child ids of `id`: one entry per edge whose parent is `id`, in
      table order, duplicates kept; empty when the id is not stored. */
  lemma GetChildrenIdsSpec(t: Tables, id: Uuid)
    requires UniqueIds(t.stakeholders)
    ensures var r := GetChildrenIds(t, id);
            var outgoing := Matching(t.relations, id, OnParent);
            && (Find(t.stakeholders, id).None? ==> r == [])
            && (Find(t.stakeholders, id).Some? ==>
                  |r| == |outgoing| && forall k :: 0 <= k < |r| ==> r[k] == outgoing[k].childId)
            && forall c :: c in r <==> Find(t.stakeholders, id).Some? && HasEdge(t.relations, id, c)
  {
    JoinedEdgesSpec(t, id, OnParent);
    Seqs.FilterMembers(t.relations, JoinsWith(id, OnParent));
    var r := GetChildrenIds(t, id);
    forall c ensures c in r <==> Find(t.stakeholders, id).Some? && HasEdge(t.relations, id, c) {
      if c in r {
        var k :| 0 <= k < |r| && r[k] == c;
        assert Matching(t.relations, id, OnParent)[k] in Matching(t.relations, id, OnParent);
      }
      if Find(t.stakeholders, id).Some? && HasEdge(t.relations, id, c) {
        var e :| e in t.relations && e.parentId == id && e.childId == c;
        var outgoing := Matching(t.relations, id, OnParent);
        assert e in outgoing;
        var k :| 0 <= k < |outgoing| && outgoing[k] == e;
        assert r[k] == c;
      }
    }
  }

  /** `.whereIn('id', ids)` */
  function IdIn(ids: seq<Uuid>): Stakeholder -> bool {
    (s: Stakeholder) => s.id in ids
  }

  /** Lines 137-148. */
  function GetParents(t: Tables, child: Uuid): (r: seq<Stakeholder>)
    ensures Ordering.Sorted(r)
  {
    var parentIds := GetParentIds(t, child);
    if |parentIds| > 0 then Ordering.SortByOrgName(Seqs.Filter(t.stakeholders, IdIn(parentIds))) else []
  }

  /** Lines 160-172: the ids are passed through a `Set` before the fetch; the
      emptiness test is on the ids before deduplication. */
  function GetChildren(t: Tables, parent: Uuid): (r: seq<Stakeholder>)
    ensures Ordering.Sorted(r)
  {
    var childrenIds := GetChildrenIds(t, parent);
    var childrenFound := Seqs.Distinct(childrenIds);
    if |childrenIds| > 0 then Ordering.SortByOrgName(Seqs.Filter(t.stakeholders, IdIn(childrenFound))) else []
  }

  /** Fetching the stored rows that satisfy `p`, in org_name order, yields
      each of them exactly once and nothing else. */
  lemma FetchSpec(ss: seq<Stakeholder>, p: Stakeholder -> bool)
    requires UniqueIds(ss)
    ensures forall x :: multiset(Ordering.SortByOrgName(Seqs.Filter(ss, p)))[x]
                        == if x in ss && p(x) then 1 else 0
  {
    Seqs.FilterMultiset(ss, p);
    UniqueIdsMultiplicity(ss);
  }

  /** getParents returns each stored parent of a stored child exactly once,
      sorted by org_name, and nothing for a child with no parent edge. */
  lemma GetParentsSpec(t: Tables, child: Uuid)
    requires UniqueIds(t.stakeholders)
    ensures forall x :: multiset(GetParents(t, child))[x]
                        == if x in t.stakeholders && ParentOf(t, x.id, child) then 1 else 0
    ensures (forall e :: e in t.relations ==> e.childId != child) ==> GetParents(t, child) == []
  {
    GetParentIdsSpec(t, child);
    var ids := GetParentIds(t, child);
    FetchSpec(t.stakeholders, IdIn(ids));
    if ids == [] {
      assert forall x: Stakeholder :: !ParentOf(t, x.id, child);
    }
    if forall e :: e in t.relations ==> e.childId != child {
      assert forall p :: !ParentOf(t, p, child);
    }
  }

  /** getChildren returns each stored child of a stored parent exactly once,
      sorted by org_name, and nothing when there is no outgoing edge. */
  lemma GetChildrenSpec(t: Tables, parent: Uuid)
    requires UniqueIds(t.stakeholders)
    ensures forall x :: multiset(GetChildren(t, parent))[x]
                        == if x in t.stakeholders && ParentOf(t, parent, x.id) && Find(t.stakeholders, parent).Some? then 1 else 0
    ensures (forall e :: e in t.relations ==> e.parentId != parent) ==> GetChildren(t, parent) == []
  {
    GetChildrenIdsSpec(t, parent);
    var ids := GetChildrenIds(t, parent);
    var found := Seqs.Distinct(ids);
    FetchSpec(t.stakeholders, IdIn(found));
    var r := GetChildren(t, parent);
    if ids == [] {
      assert r == [];
      forall x ensures multiset(r)[x] == 0
                       && !(x in t.stakeholders && ParentOf(t, parent, x.id) && Find(t.stakeholders, parent).Some?) {
        assert x.id !in ids;
      }
    } else {
      forall x ensures multiset(r)[x]
                       == if x in t.stakeholders && ParentOf(t, parent, x.id) && Find(t.stakeholders, parent).Some? then 1 else 0 {
        if x in t.stakeholders {
          FindStored(t.stakeholders, x);
        }
      }
      assert ids[0] in ids;
    }
  }

  /** The deduplication before the child fetch never changes its result:
      `whereIn` already has set semantics. */
  lemma ChildrenDedupRedundant(t: Tables, parent: Uuid)
    ensures var ids := GetChildrenIds(t, parent);
            Seqs.Filter(t.stakeholders, IdIn(Seqs.Distinct(ids))) == Seqs.Filter(t.stakeholders, IdIn(ids))
  {
    var ids := GetChildrenIds(t, parent);
    Seqs.FilterCongruent(t.stakeholders, IdIn(Seqs.Distinct(ids)), IdIn(ids));
  }

  // ---------------------------------------------------------------------
  // getStakeholderTreeById

  datatype StakeholderTree = StakeholderTree(stakeholder: Stakeholder, parents: seq<Stakeholder>, children: seq<Stakeholder>)

  datatype TreeListing = TreeListing(stakeholders: seq<StakeholderTree>, count: nat)

  /** Lines 105-125: one generation up and one down, no recursion. A missing
      id makes the code set a field of `undefined`, which throws. */
  function GetStakeholderTreeById(t: Tables, id: Uuid): (r: Result<TreeListing, Error>)
    ensures r.Success? <==> Find(t.stakeholders, id).Some?
    ensures r.Success? ==> |r.value.stakeholders| == 1 && r.value.stakeholders[0].stakeholder.id == id
  {
    match Find(t.stakeholders, id)
    case None => Failure(NoSuchStakeholder)
    case Some(s) =>
      Success(TreeListing([StakeholderTree(s, GetParents(t, s.id), GetChildren(t, s.id))],
                          CountWithId(t.stakeholders, id)))
  }

  /** Under the primary key the tree's count is 1 and its node is the stored
      row with its one-hop parents and children. */
  lemma GetStakeholderTreeByIdSpec(t: Tables, id: Uuid)
    requires UniqueIds(t.stakeholders)
    ensures var r := GetStakeholderTreeById(t, id);
            r.Success? ==> r.value.count == 1
                           && r.value.stakeholders[0].stakeholder in t.stakeholders
                           && r.value.stakeholders[0].parents == GetParents(t, id)
                           && r.value.stakeholders[0].children == GetChildren(t, id)
  {
    CountWithIdSpec(t.stakeholders, id);
  }

  // ---------------------------------------------------------------------
  // getRelatedIds / getRelations

  /** The edge has `id` at either end. */
  predicate Touches(e: Edge, id: Uuid) {
    e.parentId == id || e.childId == id
  }

  /** Lines 296-305: the rows of `s JOIN sr ON s.id = sr.child_id OR s.id =
      sr.parent_id WHERE s.id = id`. */
  function RelatedRows(t: Tables, id: Uuid): seq<Edge> {
    JoinedEdges(t, id, OnEither)
  }

  /** Both endpoints of every edge, in order: parent, then child. */
  function Endpoints(es: seq<Edge>): seq<Uuid>
    decreases |es|
  {
    if es == [] then []
    else Endpoints(es[..|es| - 1]) + [es[|es| - 1].parentId, es[|es| - 1].childId]
  }

  lemma {:induction false} EndpointsMembers(es: seq<Edge>)
    ensures forall x :: x in Endpoints(es) <==> exists e :: e in es && (x == e.parentId || x == e.childId)
    decreases |es|
  {
    if es != [] {
      var init := es[..|es| - 1];
      EndpointsMembers(init);
      assert es == init + [es[|es| - 1]];
    }
  }

  /** Lines 307-314: the `Set` the loop fills, listed in insertion order. */
  function RelatedIds(t: Tables, id: Uuid): (r: seq<Uuid>)
    ensures Seqs.NoDuplicates(r)
  {
    Seqs.Distinct(Endpoints(RelatedRows(t, id)))
  }

  /** The related ids of a stored stakeholder are the endpoints of the edges
      touching it, each once; they include the stakeholder itself exactly
      when such an edge exists; and they are empty when there is none or the
      id is not stored. */
  lemma RelatedIdsSpec(t: Tables, id: Uuid)
    requires UniqueIds(t.stakeholders)
    ensures var r := RelatedIds(t, id);
            && Seqs.NoDuplicates(r)
            && (forall x :: x in r <==>
                  (Find(t.stakeholders, id).Some? &&
                   exists e :: e in t.relations && Touches(e, id) && (x == e.parentId || x == e.childId)))
            && (id in r <==> Find(t.stakeholders, id).Some? && exists e :: e in t.relations && Touches(e, id))
            && (r == [] <==> Find(t.stakeholders, id).None? || forall e :: e in t.relations ==> !Touches(e, id))
  {
    JoinedEdgesSpec(t, id, OnEither);
    Seqs.FilterMembers(t.relations, JoinsWith(id, OnEither));
    var rows := RelatedRows(t, id);
    EndpointsMembers(rows);
    var r := RelatedIds(t, id);
    assert forall e :: e in rows <==> Find(t.stakeholders, id).Some? && e in t.relations && Touches(e, id);
    if r != [] {
      assert r[0] in r;
    }
  }

  /** Lines 317-334. `.orWhereNull('id')` adds nothing: the primary key is
      never NULL. */
  function GetRelations(t: Tables, id: Uuid): (r: Listing)
    ensures Ordering.Sorted(r.stakeholders)
  {
    var ids := RelatedIds(t, id);
    var rows := Seqs.Filter(t.stakeholders, IdIn(ids + [id]));
    Listing(Ordering.SortByOrgName(rows), |Seqs.Filter(t.stakeholders, IdIn(ids + [id]))|)
  }

  /** A fetch that only the stored row `s` satisfies yields `[s]`. */
  lemma FetchSingle(ss: seq<Stakeholder>, p: Stakeholder -> bool, s: Stakeholder)
    requires UniqueIds(ss)
    requires s in ss && p(s)
    requires forall x :: x in ss && p(x) ==> x == s
    ensures Ordering.SortByOrgName(Seqs.Filter(ss, p)) == [s]
  {
    var r := Ordering.SortByOrgName(Seqs.Filter(ss, p));
    FetchSpec(ss, p);
    assert multiset(r) == multiset{s} by {
      forall x ensures multiset(r)[x] == multiset{s}[x] {
      }
    }
    assert |r| == 1 by {
      assert |multiset(r)| == |r|;
    }
    assert r[0] in multiset(r);
  }

  /** getRelations lists every stored stakeholder whose id is related or is
      the subject, each once; the subject is listed whenever it is stored;
      the count is the number of rows listed; with no touching edge the
      listing is the subject alone. */
  lemma GetRelationsSpec(t: Tables, id: Uuid)
    requires UniqueIds(t.stakeholders)
    ensures forall x :: multiset(GetRelations(t, id).stakeholders)[x]
              == if x in t.stakeholders && (x.id == id || x.id in RelatedIds(t, id)) then 1 else 0
    ensures GetRelations(t, id).count == |GetRelations(t, id).stakeholders|
    ensures Find(t.stakeholders, id).Some? ==> Find(t.stakeholders, id).value in GetRelations(t, id).stakeholders
    ensures (forall e :: e in t.relations ==> !Touches(e, id)) ==>
              GetRelations(t, id).stakeholders == match Find(t.stakeholders, id) case Some(s) => [s] case None => []
  {
    var p := IdIn(RelatedIds(t, id) + [id]);
    FetchSpec(t.stakeholders, p);
    var r := GetRelations(t, id).stakeholders;
    assert |multiset(r)| == |r|;
    if Find(t.stakeholders, id).Some? {
      assert multiset(r)[Find(t.stakeholders, id).value] == 1;
    }
    if forall e :: e in t.relations ==> !Touches(e, id) {
      RelationsAlone(t, id);
    }
  }

  /** Without a touching edge only the subject's own row is fetched. */
  lemma RelationsAlone(t: Tables, id: Uuid)
    requires UniqueIds(t.stakeholders)
    requires forall e :: e in t.relations ==> !Touches(e, id)
    ensures GetRelations(t, id).stakeholders == match Find(t.stakeholders, id) case Some(s) => [s] case None => []
  {
    RelatedIdsSpec(t, id);
    var p := IdIn(RelatedIds(t, id) + [id]);
    match Find(t.stakeholders, id)
    case Some(s) =>
      forall x | x in t.stakeholders && p(x) ensures x == s {
        FindStored(t.stakeholders, x);
      }
      FetchSingle(t.stakeholders, p, s);
    case None =>
      Seqs.FilterNone(t.stakeholders, p);
  }

  // ---------------------------------------------------------------------
  // getFilter / getFilterById

  /** A key of the `filter` object: `search`, or a column name. */
  datatype FilterKey = Search | Col(column: Column)

  /** The `filter` object; an absent key is not in the map. */
  type Criteria = map<FilterKey, string>

  /** The destructuring default: an absent key reads as `''`. */
  function Lookup(c: Criteria, k: FilterKey): string {
    if k in c then c[k] else ""
  }

  /** `.where({ ...rest })`: every column key other than `org_name` equals
      the row's column. */
  predicate EqualsRest(s: Stakeholder, c: Criteria) {
    forall k :: k in c && k.Col? && k.column != OrgName ==> Get(s, k.column) == c[k]
  }

  /** The seven `ilike` alternatives of the search block, as written. */
  predicate SearchHits(s: Stakeholder, q: string) {
    || Text.ILike(s.orgName, q)
    || Text.ILike(s.firstName, q)
    || Text.ILike(s.lastName, q)
    || Text.ILike(s.email, q)
    || Text.ILike(s.phone, q)
    || Text.ILike(s.website, q)
    || Text.ILike(s.mapName, q)
  }

  /** Lines 175-192: `whereBuilder(filter)`. An empty `search` adds an empty
      group, which constrains nothing. */
  function WhereBuilder(c: Criteria): Stakeholder -> bool {
    (s: Stakeholder) =>
      && EqualsRest(s, c)
      && Text.ILike(s.orgName, Lookup(c, Col(OrgName)))
      && (Lookup(c, Search) == "" || SearchHits(s, Lookup(c, Search)))
  }

  /** The columns the search is run over. */
  const SearchColumns: set<Column> := {OrgName, FirstName, LastName, Email, Phone, Website, Map}

  /** A row matches getFilter exactly when it agrees with every other column
      key, its org_name contains the org_name key case-insensitively, and
      the search is empty or some searched column contains it. */
  lemma WhereBuilderSpec(c: Criteria, s: Stakeholder)
    ensures WhereBuilder(c)(s) <==>
              && (forall col :: Col(col) in c && col != OrgName ==> Get(s, col) == c[Col(col)])
              && Text.ILike(s.orgName, Lookup(c, Col(OrgName)))
              && (Lookup(c, Search) == "" ||
                  exists col :: col in SearchColumns && Text.ILike(Get(s, col), Lookup(c, Search)))
  {
    var q := Lookup(c, Search);
    if SearchHits(s, q) {
      if Text.ILike(s.orgName, q) { assert Get(s, OrgName) == s.orgName; }
      else if Text.ILike(s.firstName, q) { assert Get(s, FirstName) == s.firstName; }
      else if Text.ILike(s.lastName, q) { assert Get(s, LastName) == s.lastName; }
      else if Text.ILike(s.email, q) { assert Get(s, Email) == s.email; }
      else if Text.ILike(s.phone, q) { assert Get(s, Phone) == s.phone; }
      else if Text.ILike(s.website, q) { assert Get(s, Website) == s.website; }
      else { assert Get(s, Map) == s.mapName; }
    }
    if (forall col :: Col(col) in c && col != OrgName ==> Get(s, col) == c[Col(col)]) {
      forall k | k in c && k.Col? && k.column != OrgName ensures Get(s, k.column) == c[k] {
        assert Col(k.column) == k;
      }
    }
  }

  /** An empty filter matches every row: `'%%'` matches any org_name. */
  lemma EmptyCriteriaMatchAll(s: Stakeholder)
    ensures WhereBuilder(map[])(s)
  {
    Text.ILikeEmpty(s.orgName);
  }

  /** The rows matching `filter`, in org_name order, before pagination. */
  function FilterListing(t: Tables, c: Criteria): (r: seq<Stakeholder>)
    ensures Ordering.Sorted(r)
  {
    Ordering.SortByOrgName(Seqs.Filter(t.stakeholders, WhereBuilder(c)))
  }

  /** Lines 174-217. `limitOptions.limit` is read without a guard, so a
      missing argument raises before any query. */
  function GetFilter(t: Tables, c: Criteria, opts: Option<LimitOptions>): (r: Result<Listing, Error>)
    ensures r.Failure? <==> opts.None?
    ensures r.Failure? ==> r.error == MissingLimitOptions
  {
    match opts
    case None => Failure(MissingLimitOptions)
    case Some(o) =>
      Success(Listing(Paginate(FilterListing(t, c), FilterWindow(o)),
                      |Seqs.Filter(t.stakeholders, WhereBuilder(c))|))
  }

  /** A page of an ordered result under the filters' window: it starts at
      the offset, is at most `offset` rows long when the offset is truthy and
      at most `limit` rows otherwise, and is sorted. */
  predicate FilterPageOf(page: seq<Stakeholder>, rows: seq<Stakeholder>, o: LimitOptions) {
    var start := Min(o.offset.GetOr(0), |rows|);
    var cap := if Truthy(o.offset) then o.offset else o.limit;
    && |page| == (if cap.Some? then Min(cap.value, |rows| - start) else |rows| - start)
    && page == rows[start..start + |page|]
  }

  lemma FilterPage(rows: seq<Stakeholder>, o: LimitOptions)
    requires Ordering.Sorted(rows)
    ensures FilterPageOf(Paginate(rows, FilterWindow(o)), rows, o)
    ensures Ordering.Sorted(Paginate(rows, FilterWindow(o)))
  {
    var page := Paginate(rows, FilterWindow(o));
    var start := Min(o.offset.GetOr(0), |rows|);
    assert page == rows[start..start + |page|];
    Ordering.SortedSlice(rows, start, start + |page|);
  }

  /** getFilter lists each stored row that matches the filter exactly once,
      pages it at the offset, and counts all matching rows whatever the
      pagination. */
  lemma GetFilterSpec(t: Tables, c: Criteria, o: LimitOptions, other: LimitOptions)
    requires UniqueIds(t.stakeholders)
    ensures forall x :: multiset(FilterListing(t, c))[x]
                        == if x in t.stakeholders && WhereBuilder(c)(x) then 1 else 0
    ensures var r := GetFilter(t, c, Some(o));
            && r.Success?
            && FilterPageOf(r.value.stakeholders, FilterListing(t, c), o)
            && Ordering.Sorted(r.value.stakeholders)
            && r.value.count == |FilterListing(t, c)|
            && r.value.count == GetFilter(t, c, Some(other)).value.count
  {
    FetchSpec(t.stakeholders, WhereBuilder(c));
    FilterPage(FilterListing(t, c), o);
  }

  /** Lines 225-226 and 243-244: `whereIn('id', relatedIds)` and
      `.andWhere({ ...filter })`, every key an exact match. */
  function RelatedAndEqual(ids: seq<Uuid>, c: Criteria): Stakeholder -> bool {
    (s: Stakeholder) => s.id in ids && forall k :: k in c && k.Col? ==> Get(s, k.column) == c[k]
  }

  /** Lines 219-247. Every filter key is a column here, so a `search` key
      names a column the table lacks and the awaited count fails. */
  function GetFilterById(t: Tables, id: Uuid, c: Criteria, opts: Option<LimitOptions>): (r: Result<Listing, Error>)
    ensures r.Failure? <==> opts.None? || Search in c
    ensures opts.None? ==> r == Failure(MissingLimitOptions)
    ensures opts.Some? && Search in c ==> r == Failure(UnknownColumn)
  {
    var p := RelatedAndEqual(RelatedIds(t, id), c);
    match opts
    case None => Failure(MissingLimitOptions)
    case Some(o) =>
      if Search in c then Failure(UnknownColumn)
      else Success(Listing(Paginate(Ordering.SortByOrgName(Seqs.Filter(t.stakeholders, p)), FilterWindow(o)),
                           |Seqs.Filter(t.stakeholders, p)|))
  }

  /** getFilterById is restricted to the related ids and matches every key
      exactly (`org_name` included, no substring match); its count ignores
      pagination; a stakeholder without edges gets an empty listing,
      itself included. */
  lemma GetFilterByIdSpec(t: Tables, id: Uuid, c: Criteria, o: LimitOptions, other: LimitOptions)
    requires UniqueIds(t.stakeholders)
    requires Search !in c
    ensures var rows := Ordering.SortByOrgName(Seqs.Filter(t.stakeholders, RelatedAndEqual(RelatedIds(t, id), c)));
            && (forall x :: multiset(rows)[x]
                  == if x in t.stakeholders && x.id in RelatedIds(t, id)
                        && (forall col :: Col(col) in c ==> Get(x, col) == c[Col(col)]) then 1 else 0)
            && var r := GetFilterById(t, id, c, Some(o));
               && r.Success?
               && FilterPageOf(r.value.stakeholders, rows, o)
               && r.value.count == |rows|
               && r.value.count == GetFilterById(t, id, c, Some(other)).value.count
    ensures (forall e :: e in t.relations ==> !Touches(e, id)) ==>
              GetFilterById(t, id, c, Some(o)).value == Listing([], 0)
  {
    var ids := RelatedIds(t, id);
    var p := RelatedAndEqual(ids, c);
    var rows := Ordering.SortByOrgName(Seqs.Filter(t.stakeholders, p));
    FetchSpec(t.stakeholders, p);
    forall x ensures p(x) <==> x.id in ids && (forall col :: Col(col) in c ==> Get(x, col) == c[Col(col)]) {
      if forall col :: Col(col) in c ==> Get(x, col) == c[Col(col)] {
        forall k | k in c && k.Col? ensures Get(x, k.column) == c[k] {
          assert Col(k.column) == k;
        }
      }
    }
    FilterPage(rows, o);
    if forall e :: e in t.relations ==> !Touches(e, id) {
      RelatedIdsSpec(t, id);
      Seqs.FilterNone(t.stakeholders, p);
    }
  }
}
