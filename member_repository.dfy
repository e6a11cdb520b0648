/**
 * The custom member repository: a dynamic search over members left-joined to their team,
 * projected to `MemberTeamDto`, in an unpaged form (`Search`) and a paged form (`SearchPage`).
 * The storage is the sequence of stored members; its order stands for the unspecified order
 * in which the database returns rows, since neither query orders them.
 */
module MemberRepositoryCustomImpl {
  import opened Wrappers
  import opened Entities
  import opened Seqs
  import opened StringUtils
  import opened Expressions

  // ---- Predicate selection ------------------------------------------------------------

  /** A username equality clause, only when the username has text. */
  function UsernameEq(username: Option<string>): (r: Option<Clause>)
    ensures r.Some? <==> HasText(username)
    ensures forall m :: Admits(r, m) <==> (HasText(username) ==> m.username == username.value)
  {
    if HasText(username) then Some(UsernameIs(username.value)) else None
  }

  /** An equality clause on the joined team's name, only when the name has text. */
  function TeamNameEq(teamName: Option<string>): (r: Option<Clause>)
    ensures r.Some? <==> HasText(teamName)
    ensures forall m :: Admits(r, m) <==>
      (HasText(teamName) ==> m.team.Some? && m.team.value.name == teamName.value)
  {
    if HasText(teamName) then Some(TeamNameIs(teamName.value)) else None
  }

  /** An inclusive lower age bound, whenever one is given (zero included). */
  function AgeGoe(ageGoe: Option<int>): (r: Option<Clause>)
    ensures r.Some? <==> ageGoe.Some?
    ensures forall m :: Admits(r, m) <==> (ageGoe.Some? ==> m.age >= ageGoe.value)
  {
    if ageGoe.None? then None else Some(AgeAtLeast(ageGoe.value))
  }

  /** An inclusive upper age bound, whenever one is given (zero included). */
  function AgeLoe(ageLoe: Option<int>): (r: Option<Clause>)
    ensures r.Some? <==> ageLoe.Some?
    ensures forall m :: Admits(r, m) <==> (ageLoe.Some? ==> m.age <= ageLoe.value)
  {
    if ageLoe.None? then None else Some(AgeAtMost(ageLoe.value))
  }

  /**
   * What a condition asks of a member, field by field: a blank or null string and a null
   * bound ask nothing.
   */
  predicate Matches(c: MemberSearchCondition, m: Member) {
    && (HasText(c.username) ==> m.username == c.username.value)
    && (HasText(c.teamName) ==> m.team.Some? && m.team.value.name == c.teamName.value)
    && (c.ageGoe.Some? ==> m.age >= c.ageGoe.value)
    && (c.ageLoe.Some? ==> m.age <= c.ageLoe.value)
  }

  function MatchesOf(c: MemberSearchCondition): Member -> bool {
    m => Matches(c, m)
  }

  /** The four nullable expressions both queries pass to `where(...)`. */
  function ConditionArgs(c: MemberSearchCondition): seq<Option<Clause>> {
    [UsernameEq(c.username), TeamNameEq(c.teamName), AgeGoe(c.ageGoe), AgeLoe(c.ageLoe)]
  }

  /** The clauses the queries apply: their conjunction is exactly what the condition asks. */
  function Clauses(c: MemberSearchCondition): (r: seq<Clause>)
    ensures |r| <= 4
    ensures forall m :: AllHold(r, m) <==> Matches(c, m)
  {
    var args := ConditionArgs(c);
    assert forall m :: (forall i :: 0 <= i < |args| ==> Admits(args[i], m)) <==>
      Admits(args[0], m) && Admits(args[1], m) && Admits(args[2], m) && Admits(args[3], m);
    WhereArgs(args)
  }

  // ---- Execution ----------------------------------------------------------------------

  /**
   * The `QMemberTeamDto` projection of a member left-joined to its team: the member columns
   * are copied, and the team columns are null exactly when the member has no team.
   */
  function Project(m: Member): (row: MemberTeamDto)
    ensures row.memberId == m.id && row.username == m.username && row.age == m.age
    ensures row.teamId.None? <==> m.team.None?
    ensures row.teamName.None? <==> m.team.None?
    ensures m.team.Some? ==> row.teamId == Some(m.team.value.id) && row.teamName == Some(m.team.value.name)
  {
    MemberTeamDto(
      m.id, m.username, m.age,
      if m.team.Some? then Some(m.team.value.id) else None,
      if m.team.Some? then Some(m.team.value.name) else None)
  }

  function ProjectAll(ms: seq<Member>): (r: seq<MemberTeamDto>)
    ensures |r| == |ms|
    ensures forall i :: 0 <= i < |ms| ==> r[i] == Project(ms[i])
  {
    seq(|ms|, i requires 0 <= i < |ms| => Project(ms[i]))
  }

  /**
   * One member-left-join-team projection query, as the repository builds it: the clauses
   * given to `where`, and the `offset`/`limit` it sets (none for `search`).
   */
  datatype MemberTeamQuery = MemberTeamQuery(where: seq<Clause>, offset: nat, limit: Option<nat>)

  /** Running a query: the projections of the admitted members from `offset` on, at most `limit` of them. */
  function Fetch(store: seq<Member>, q: MemberTeamQuery): (r: seq<MemberTeamDto>)
    ensures q.limit.Some? ==> |r| <= q.limit.value
    ensures var n := |Where(store, q.where)|;
      |r| == if q.offset >= n then 0 else if q.limit.Some? then Min(q.limit.value, n - q.offset) else n - q.offset
    ensures forall i :: 0 <= i < |r| ==>
      q.offset + i < |Where(store, q.where)| && r[i] == Project(Where(store, q.where)[q.offset + i])
  {
    Slice(ProjectAll(Where(store, q.where)), q.offset, q.limit)
  }

  function SearchQuery(c: MemberSearchCondition): MemberTeamQuery {
    MemberTeamQuery(Clauses(c), 0, None)
  }

  function PageQuery(c: MemberSearchCondition, p: Pageable): MemberTeamQuery {
    MemberTeamQuery(Clauses(c), p.offset, Some(p.pageSize))
  }

  /** `search`: one row per stored member that matches the condition, in store order. */
  function Search(store: seq<Member>, c: MemberSearchCondition): (r: seq<MemberTeamDto>)
    ensures r == ProjectAll(Filter(store, MatchesOf(c)))
  {
    FilterExt(store, ClauseFilter(Clauses(c)), MatchesOf(c));
    var rows := ProjectAll(Where(store, Clauses(c)));
    assert rows[0..] == rows;
    Fetch(store, SearchQuery(c))
  }

  /**
   * `searchPage` as written: the content is the page query's rows, and the total handed to
   * `PageImpl` is the size of a second run of that same offset/limit query. The count rule
   * applied to a third copy of the query is computed and discarded; see `DiscardedPageTotal`.
   */
  function SearchPage(store: seq<Member>, c: MemberSearchCondition, p: Pageable): (r: Page)
    ensures r.pageable == p
    ensures r.content == Slice(Search(store, c), p.offset, Some(p.pageSize))
    ensures |r.content| <= p.pageSize
    ensures r.total == |r.content| <= p.pageSize
  {
    var content := Fetch(store, PageQuery(c, p));
    var total := |Fetch(store, PageQuery(c, p))|;
    Page(content, p, total)
  }

  // ---- The count rule -----------------------------------------------------------------

  /**
   * Whether the count query has to run. It is skipped on the first page when the content is
   * shorter than a page, and on the last page (content not empty, shorter than a page).
   */
  predicate CountQueryNeeded(offset: nat, pageSize: PageSize, contentSize: nat)
    ensures CountQueryNeeded(offset, pageSize, contentSize) <==>
      contentSize >= pageSize || (offset != 0 && contentSize == 0)
  {
    && !(offset == 0 && pageSize > contentSize)
    && !(contentSize != 0 && pageSize > contentSize)
  }

  /**
   * `PageableExecutionUtils.getPage`'s total: `count` (the count query's answer) when the
   * count query has to run, and otherwise the offset plus the content size.
   */
  function PageTotal(offset: nat, pageSize: PageSize, contentSize: nat, count: nat): (total: int)
    ensures CountQueryNeeded(offset, pageSize, contentSize) ==> total == count
    ensures !CountQueryNeeded(offset, pageSize, contentSize) ==>
      contentSize < pageSize && total == offset + contentSize
  {
    if CountQueryNeeded(offset, pageSize, contentSize) then count else offset + contentSize
  }

  /**
   * The count rule is sound: on content that is the page's slice of `rows`, given the true
   * count of `rows`, it yields that count whether or not it runs the count query.
   */
  lemma PageTotalSound<T>(rows: seq<T>, offset: nat, pageSize: PageSize)
    ensures PageTotal(offset, pageSize, |Slice(rows, offset, Some(pageSize))|, |rows|) == |rows|
  {
  }

  /**
   * The count rule as `searchPage` hands it to `PageableExecutionUtils.getPage`, with a supplier
   * that re-runs the limited page query: where the count query runs, its answer is the
   * page's own size.
   */
  function DiscardedPageTotal(store: seq<Member>, c: MemberSearchCondition, p: Pageable): (total: int)
    ensures var k := |SearchPage(store, c, p).content|;
      total == if CountQueryNeeded(p.offset, p.pageSize, k) then k else p.offset + k
    ensures total <= p.offset + p.pageSize
  {
    var content := Fetch(store, PageQuery(c, p));
    PageTotal(p.offset, p.pageSize, |content|, |Fetch(store, PageQuery(c, p))|)
  }

  /** `searchPage` as evidently intended: the count rule, with a count query that has no offset or limit. */
  function SearchPageIntended(store: seq<Member>, c: MemberSearchCondition, p: Pageable): (r: Page)
    ensures r.pageable == p
    ensures r.content == SearchPage(store, c, p).content
    ensures r.total == |Search(store, c)|
  {
    var content := Fetch(store, PageQuery(c, p));
    var count := |Fetch(store, SearchQuery(c))|;
    PageTotalSound(Search(store, c), p.offset, p.pageSize);
    Page(content, p, PageTotal(p.offset, p.pageSize, |content|, count))
  }
}
