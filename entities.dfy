/**
 * The entities the search reads and the values it exchanges with its callers: members that
 * optionally belong to a team, the sparse search condition, the projected result row, and
 * the paging request and page.
 */
module Entities {
  import opened Wrappers

  /** A team; identifiers are assigned by the persistence layer. */
  datatype Team = Team(id: int, name: string)

  /** A member with its many-to-one association to at most one team. */
  datatype Member = Member(id: int, username: string, age: int, team: Option<Team>)

  /** The row `search` projects: member columns plus the left-joined team's columns. */
  datatype MemberTeamDto = MemberTeamDto(
    memberId: int,
    username: string,
    age: int,
    teamId: Option<int>,
    teamName: Option<string>)

  /** The caller's filter; every field is independently nullable. */
  datatype MemberSearchCondition = MemberSearchCondition(
    username: Option<string>,
    teamName: Option<string>,
    ageGoe: Option<int>,
    ageLoe: Option<int>)

  /** A condition with every field null. */
  const NoCondition := MemberSearchCondition(None, None, None, None)

  /** A page size; Spring's page requests refuse sizes below one. */
  type PageSize = n: int | 1 <= n witness 1

  /** What the search reads from a `Pageable`: its offset and its page size. */
  datatype Pageable = Pageable(offset: nat, pageSize: PageSize)

  /** A `PageImpl`, seen as the record of what it is constructed from. */
  datatype Page = Page(content: seq<MemberTeamDto>, pageable: Pageable, total: int)

  /** Entity identity: no two stored members share an identifier. */
  predicate UniqueIds(store: seq<Member>) {
    forall i, j :: 0 <= i < j < |store| ==> store[i].id != store[j].id
  }
}
