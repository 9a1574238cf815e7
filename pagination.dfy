/** LIMIT and OFFSET as the repository's knex query builders record them. */
module Pagination {
  import opened Wrappers

  /** The `limitOptions` argument; an absent key is `None`. */
  datatype LimitOptions = LimitOptions(limit: Option<nat>, offset: Option<nat>)

  /** JavaScript truthiness of an optional number: present and non-zero. */
  predicate Truthy(v: Option<nat>) {
    v.Some? && v.value != 0
  }

  /** What a builder has recorded: `limit == None` is "no LIMIT", an offset
      of 0 is "no OFFSET". */
  datatype Window = Window(limit: Option<nat>, offset: nat)

  const Unbounded := Window(None, 0)

  /** knex's `.limit(v)`: a number replaces any earlier limit (0 included);
      `undefined` is ignored. */
  function Limit(w: Window, v: Option<nat>): Window {
    if v.Some? then w.(limit := v) else w
  }

  /** knex's `.offset(v)`: `undefined` and 0 both leave no OFFSET. */
  function Offset(w: Window, v: Option<nat>): Window {
    w.(offset := v.GetOr(0))
  }

  /** The builder of the two listings: a `.limit(limit)` when `limit` is
      truthy, then a second `.limit(offset)` when `offset` is truthy. No
      OFFSET is ever recorded and a truthy offset replaces the limit. */
  function ListingWindow(opts: Option<LimitOptions>): (w: Window)
    ensures w.offset == 0
    ensures opts.Some? && Truthy(opts.value.offset) ==> w.limit == opts.value.offset
    ensures opts.Some? && !Truthy(opts.value.offset) && Truthy(opts.value.limit) ==> w.limit == opts.value.limit
    ensures (opts.None? || (!Truthy(opts.value.offset) && !Truthy(opts.value.limit))) ==> w.limit.None?
  {
    var w := Unbounded;
    var w := if opts.Some? && Truthy(opts.value.limit) then Limit(w, opts.value.limit) else w;
    if opts.Some? && Truthy(opts.value.offset) then Limit(w, opts.value.offset) else w
  }

  /** The builder of the two filters: unconditional `.limit(limit)` and
      `.offset(offset)`, then the same two conditional `.limit` calls. The
      offset is applied; a truthy offset still replaces the limit. */
  function FilterWindow(opts: LimitOptions): (w: Window)
    ensures w.offset == opts.offset.GetOr(0)
    ensures Truthy(opts.offset) ==> w.limit == opts.offset
    ensures !Truthy(opts.offset) ==> w.limit == opts.limit
  {
    var w := Offset(Limit(Unbounded, opts.limit), opts.offset);
    var w := if Truthy(opts.limit) then Limit(w, opts.limit) else w;
    if Truthy(opts.offset) then Limit(w, opts.offset) else w
  }

  function Min(a: int, b: int): int {
    if a <= b then a else b
  }

  /** The rows an ordered result `rows` yields under `w`: skip OFFSET rows,
      then keep at most LIMIT of them. */
  function Paginate<T>(rows: seq<T>, w: Window): (page: seq<T>)
    ensures |page| == (var rest := |rows| - Min(w.offset, |rows|);
                       if w.limit.Some? then Min(w.limit.value, rest) else rest)
    ensures forall k :: 0 <= k < |page| ==> page[k] == rows[Min(w.offset, |rows|) + k]
  {
    var rest := rows[Min(w.offset, |rows|)..];
    if w.limit.Some? then rest[..Min(w.limit.value, |rest|)] else rest
  }

  /** Without an OFFSET a page is a prefix of the ordered result. */
  lemma PrefixPage<T>(rows: seq<T>, w: Window)
    requires w.offset == 0
    ensures Paginate(rows, w) == rows[..|Paginate(rows, w)|]
  {
  }
}
