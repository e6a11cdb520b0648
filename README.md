# Dynamic member search with QueryDSL, modelled in Dafny

The repository is a study project for QueryDSL on Spring Data JPA. Its one piece of logic
is the custom member repository. There, `search` and `searchPage` turn a sparse
`MemberSearchCondition` into a set of optional `where` clauses. They run a projection of
each member left-joined to its team, giving `(memberId, username, age, teamId?, teamName?)`,
and `searchPage` also slices by offset and limit and works out a total for the page. A
smaller version of the same pattern sits in the projection tests: a `BooleanBuilder` filled
clause by clause, and nullable clauses combined with `.and`.

The model replaces the database with a sequence of stored members. Each member carries its
optional team. The association is many-to-one, so the left join gives exactly one tuple per
member: the member with its team, or with nulls when it has none. Neither query orders its
rows, so the store's sequence order stands for the database's unspecified order. Results
are stated as sequences in that order.

Modules, following the program's structure:

- `Wrappers`: `Option` (Java `null`) and `Result` (a call that throws).
- `Seqs`: filtering and `OFFSET`/`LIMIT` slicing, with their lemmas.
- `StringUtils`: Spring's `hasText`, built on Java's `Character.isWhitespace`.
- `Entities`: `Team`, `Member`, `MemberTeamDto`, `MemberSearchCondition`, `Pageable`, `Page`.
- `Expressions`: QueryDSL boolean expressions (`Clause`), `where(...)` dropping null arguments, and `selectFrom(member).where(..)`.
- `MemberRepositoryCustomImpl`: the predicate helpers, the projection, query execution, `Search`, `SearchPage`, the count rule `PageTotal`, and the corrected `SearchPageIntended`.
- `SearchProperties`: lemmas about `Search` and `SearchPage` over every store and condition.
- `Fixture`, `MemberRepositoryTest`: the four-member fixture and the repository's test scenario.
- `QuerydslProjectionTests`: the `BooleanBuilder` class, `SearchMember` (a method, since the builder is mutated in place), and the nullable-clause helpers.

How the page total is computed:

- `PageTotal` follows `PageableExecutionUtils.getPage`. It skips the count query in the two cases the comment at lines 101-103 of `MemberRepositoryCustomImpl.java` names: the first page with content shorter than a page, and the last page.
- `SearchPage` returns as its total the size of the limited fetch at lines 84-99, as line 122 passes it to `PageImpl`. The source also applies the count rule at line 120 and discards its result; `SearchPage` leaves that call out, and `DiscardedPageTotal` models the discarded value. The findings below show what this gives.
- The interface `MemberRepositoryCustom.java` (lines 8-10) declares only `search`. So the `@Override` on `searchPage` (line 65 of `MemberRepositoryCustomImpl.java`) and the call `memberRepository.searchPage(...)` in `MemberController.java` (line 23) do not compile as written. The model treats `searchPage` as the repository method it is evidently meant to be.

## Model

| member | source | states |
|---|---|---|
| `StringUtils.ContainsText` | src/main/java/com/spring/querydsl/repository/MemberRepositoryCustomImpl.java:50 | true exactly when some character is not Java whitespace |
| `StringUtils.HasText` | src/main/java/com/spring/querydsl/repository/MemberRepositoryCustomImpl.java:50 | true exactly when the string is non-null and has a non-whitespace character |
| `StringUtils.HasTextCases` | src/main/java/com/spring/querydsl/repository/MemberRepositoryCustomImpl.java:49-51 | null, empty and whitespace-only strings have no text; `" a "` has text |
| `MemberRepositoryCustomImpl.UsernameEq` | src/main/java/com/spring/querydsl/repository/MemberRepositoryCustomImpl.java:49-51 | a clause exists iff the username has text; it then admits exactly the members with that username, and otherwise nothing is restricted |
| `MemberRepositoryCustomImpl.TeamNameEq` | src/main/java/com/spring/querydsl/repository/MemberRepositoryCustomImpl.java:53-55 | a clause exists iff the team name has text; it then admits exactly members whose joined team has that name, which excludes members without a team |
| `MemberRepositoryCustomImpl.AgeGoe` | src/main/java/com/spring/querydsl/repository/MemberRepositoryCustomImpl.java:57-59 | a clause exists iff the bound is non-null (zero included); it admits exactly `age >= bound` |
| `MemberRepositoryCustomImpl.AgeLoe` | src/main/java/com/spring/querydsl/repository/MemberRepositoryCustomImpl.java:61-63 | a clause exists iff the bound is non-null (zero included); it admits exactly `age <= bound` |
| `Expressions.WhereArgs` | src/main/java/com/spring/querydsl/repository/MemberRepositoryCustomImpl.java:42-45 | `where(...)` ignores null arguments: the kept clauses are exactly the non-null arguments, and their conjunction holds iff every argument admits the member |
| `MemberRepositoryCustomImpl.Clauses` | src/main/java/com/spring/querydsl/repository/MemberRepositoryCustomImpl.java:42-46 | at most four clauses, and their conjunction holds iff the member meets every active field of the condition |
| `Expressions.Where` | src/test/java/com/spring/querydsl/QuerydslProjectionTests.java:166-169 | `selectFrom(member).where(..)` returns exactly the stored members every clause admits, each as many times as it is stored; no clause returns the whole store |
| `MemberRepositoryCustomImpl.Project` | src/main/java/com/spring/querydsl/repository/MemberRepositoryCustomImpl.java:34-41 | the left-joined projection: member columns are copied; team columns are null iff the member has no team, and otherwise are its team's |
| `MemberRepositoryCustomImpl.Fetch` | src/main/java/com/spring/querydsl/repository/MemberRepositoryCustomImpl.java:67-82 | none past the end of the admitted members, otherwise `min(limit, n - offset)` rows (all `n - offset` without a limit); row i is the projection of the admitted member at position `offset + i` |
| `Seqs.Slice` | src/main/java/com/spring/querydsl/repository/MemberRepositoryCustomImpl.java:80-81 | offset/limit: empty past the end, otherwise `min(limit, n - offset)` rows, each the row at `offset + i` |
| `MemberRepositoryCustomImpl.Search` | src/main/java/com/spring/querydsl/repository/MemberRepositoryCustomImpl.java:31-47 | the projections of exactly the stored members matching the condition, in store order |
| `MemberRepositoryCustomImpl.SearchPage` | src/main/java/com/spring/querydsl/repository/MemberRepositoryCustomImpl.java:65-123 | content is `Search` sliced to `[offset, offset + pageSize)`, at most a page; the total is the content size, never above the page size |
| `MemberRepositoryCustomImpl.CountQueryNeeded` | src/main/java/com/spring/querydsl/repository/MemberRepositoryCustomImpl.java:101-103 | the count query runs iff the content fills a page, or it is empty past the first page |
| `MemberRepositoryCustomImpl.PageTotal` | src/main/java/com/spring/querydsl/repository/MemberRepositoryCustomImpl.java:120 | the count query's answer when it runs; otherwise (only for content shorter than a page) the offset plus the content size |
| `MemberRepositoryCustomImpl.PageTotalSound` | src/main/java/com/spring/querydsl/repository/MemberRepositoryCustomImpl.java:101-120 | given the true count, the count-skipping rule returns that count, whether or not it skips the count query |
| `MemberRepositoryCustomImpl.DiscardedPageTotal` | src/main/java/com/spring/querydsl/repository/MemberRepositoryCustomImpl.java:104-120 | the discarded count-rule result: the page's own content size where the count query runs, otherwise offset plus content size; never above `offset + pageSize` |
| `MemberRepositoryCustomImpl.SearchPageIntended` | src/main/java/com/spring/querydsl/repository/MemberRepositoryCustomImpl.java:84-122 | the same content as `SearchPage`, with a total equal to the full number of matches |
| `SearchProperties.SearchRows` | src/main/java/com/spring/querydsl/repository/MemberRepositoryCustomImpl.java:33-46 | a row is in the result iff it is the projection of a stored member that matches |
| `SearchProperties.BlankUsernameIsUnset` | src/main/java/com/spring/querydsl/repository/MemberRepositoryCustomImpl.java:49-51 | a null, empty or blank username gives the same result as an unset one |
| `SearchProperties.BlankTeamNameIsUnset` | src/main/java/com/spring/querydsl/repository/MemberRepositoryCustomImpl.java:53-55 | a null, empty or blank team name gives the same result as an unset one |
| `SearchProperties.ContradictoryAgeRangeIsEmpty` | src/main/java/com/spring/querydsl/repository/MemberRepositoryCustomImpl.java:57-63 | a lower bound above the upper bound gives an empty result, not an error |
| `SearchProperties.ExtraFilterNeverEnlarges` | src/main/java/com/spring/querydsl/repository/MemberRepositoryCustomImpl.java:42-46 | extra active filters give the wider result filtered again: no more rows, and only rows of the wider result |
| `SearchProperties.FilterKeepsIdsUnique` | src/main/java/com/spring/querydsl/repository/MemberRepositoryCustomImpl.java:40-46 | filtering a store with unique member ids keeps the ids unique |
| `SearchProperties.SearchRowsDistinct` | src/main/java/com/spring/querydsl/repository/MemberRepositoryCustomImpl.java:33-41 | with unique ids in the store, no two rows share a member id: one row per matching member |
| `SearchProperties.TeamlessMember` | src/main/java/com/spring/querydsl/repository/MemberRepositoryCustomImpl.java:38-55 | a member without a team has null team columns; it appears iff no team-name filter is active and the other filters admit it, and then only once |
| `SearchProperties.WholePageIsSearch` | src/main/java/com/spring/querydsl/repository/MemberRepositoryCustomImpl.java:67-82 | a first page at least as large as the result has exactly the `Search` result as content |
| `SearchProperties.SearchPageTotalExactIff` | src/main/java/com/spring/querydsl/repository/MemberRepositoryCustomImpl.java:84-122 | the returned total equals the number of matches iff there are none, or the page is the first and holds them all |
| `Fixture.Members` | src/test/java/com/spring/querydsl/QuerydslProjectionTests.java:41-53 | the four fixture members have distinct ids |
| `MemberRepositoryTest.SearchTest` | src/test/java/com/spring/querydsl/repository/MemberRepositoryTest.java:48-73 | ages 35 to 40 in team B select exactly one row, member4 |
| `MemberRepositoryTest.SearchAll` | src/test/java/com/spring/querydsl/repository/MemberRepositoryTest.java:50-62 | with no filter, the result is the projections of the four fixture members, in order |
| `MemberRepositoryTest.PageTotalUndercounts` | src/main/java/com/spring/querydsl/repository/MemberRepositoryCustomImpl.java:84-99 | the first page of size two reports a total of 2 while 4 members match |
| `MemberRepositoryTest.CountSupplierUndercounts` | src/main/java/com/spring/querydsl/repository/MemberRepositoryCustomImpl.java:104-120 | the discarded count-rule result is also 2 where 4 members match |
| `MemberRepositoryTest.IntendedPageTotals` | src/main/java/com/spring/querydsl/repository/MemberRepositoryCustomImpl.java:101-103 | on the fixture: a full first page and a page past the end need the count query; short first and last pages skip it; the intended total is 4 in each case |
| `QuerydslProjectionTests.BooleanBuilder.constructor` | src/test/java/com/spring/querydsl/QuerydslProjectionTests.java:156 | a new builder holds no predicate |
| `QuerydslProjectionTests.BooleanBuilder.And` | src/test/java/com/spring/querydsl/QuerydslProjectionTests.java:158-164 | the first clause becomes the value and later ones are conjoined to it; the builder then admits exactly what it admitted before and the clause admits |
| `QuerydslProjectionTests.SearchMember` | src/test/java/com/spring/querydsl/QuerydslProjectionTests.java:155-170 | the stored members equal to every non-null parameter (null check only, so `""` filters), in store order; both null gives the whole store |
| `QuerydslProjectionTests.UsernameEq` | src/test/java/com/spring/querydsl/QuerydslProjectionTests.java:190-195 | no clause for null; otherwise a clause admitting exactly that username |
| `QuerydslProjectionTests.AgeEq` | src/test/java/com/spring/querydsl/QuerydslProjectionTests.java:197-199 | no clause for null; otherwise a clause admitting exactly that age |
| `QuerydslProjectionTests.AllEq` | src/test/java/com/spring/querydsl/QuerydslProjectionTests.java:201-203 | throws iff the username is null (null dereference); otherwise a clause admitting exactly the members equal to the non-null parameters |
| `QuerydslProjectionTests.SearchMember2` | src/test/java/com/spring/querydsl/QuerydslProjectionTests.java:182-188 | fails iff the username is null; otherwise the same members as `SearchMember` |
| `QuerydslProjectionTests.EmptyUsernameIsActive` | src/test/java/com/spring/querydsl/QuerydslProjectionTests.java:190-195 | `""` gives a clause here, but none in the repository's `hasText`-guarded helper |
| `QuerydslProjectionTests.OnlyMember1Matches` | src/test/java/com/spring/querydsl/QuerydslProjectionTests.java:46-53 | among the fixture, only member1 has username "member1" and age 10 |
| `QuerydslProjectionTests.DynamicQueryBooleanBuilder` | src/test/java/com/spring/querydsl/QuerydslProjectionTests.java:145-153 | `searchMember("member1", 10)` returns exactly one member, member1 |
| `QuerydslProjectionTests.DynamicQueryWhereParam` | src/test/java/com/spring/querydsl/QuerydslProjectionTests.java:172-180 | `searchMember2("member1", 10)` succeeds with exactly one member, member1 |

## Left out

- The database, `EntityManager`, JPA persistence and transactions. The store is a sequence of members, and the model holds no state between calls.
- How QueryDSL's fluent API renders SQL. Each query is its clauses plus its offset and limit.
- Failures of the storage layer (connection, timeout). The model's queries always answer.
- `PageImpl` is a record of what it is constructed from. Spring's own adjustment of the total inside that constructor is not part of this model.
- `PageableExecutionUtils.getPage` is the count rule alone. Its branch for unpaged requests is not modelled, because the repository reads the offset before calling it. The supplier it receives is lazy; the model passes the count as a value, and `CountQueryNeeded` says whether that query would run.
- A null condition or pageable, and unpaged requests. `search(null)` and `searchPage(null, p)` throw a `NullPointerException` at `condition.getUsername()` (lines 42 and 76), and `Pageable.unpaged()` throws an `UnsupportedOperationException` from `getOffset()` (line 80). No caller in the repository reaches these paths, so the model's types make the condition and the pageable always present and paged.
- Page sizes below one: the code checks no page size; Spring's `PageRequest` refuses sizes below one, so the model's `PageSize` type excludes them.
- `Pageable` is reduced to its offset and page size; how Spring derives the offset from a page number is not modelled.
- Java's `long` offsets and `Integer` ages are unbounded integers. No overflow is modelled, as the values involved are far from the limits.
- Stored usernames and team names are never null. The entity classes are not part of this model.
- Member and team identifiers are generated by the persistence layer. The fixture uses fixed values, and no result depends on them.
- Result order. With no `orderBy`, the store's sequence order stands for whatever order the database returns.
- The controller, which only returns a page's content. `MemberRepository.findByUsername`, a derived query with no visible logic.
- The projection tests' other demonstrations (`simpleProjection`, `tupleProjection`, `dtoProjection`, `queryProjection`), and the commented-out alternative at line 185. `QuerydslBasicTest` and `QuerydslApplicationTests` show library features and contain none of this logic.

## Findings

| source | as written | input that shows it | evidently intended | confidence | as-written member | corrected member |
|---|---|---|---|---|---|---|
| src/main/java/com/spring/querydsl/repository/MemberRepositoryCustomImpl.java:84-99 | the page total is the size of a second fetch that carries the same offset and limit, so it never exceeds the page size | the four fixture members, an empty condition, offset 0, page size 2: total 2 although 4 members match | the total is the number of all matching rows | not executed | `MemberRepositoryTest.PageTotalUndercounts` | `MemberRepositoryCustomImpl.SearchPageIntended` |
| src/main/java/com/spring/querydsl/repository/MemberRepositoryCustomImpl.java:104-120 | the count rule is given a count supplier that also carries the offset and limit, and its result is discarded | the same input: the rule runs the supplier and yields 2 where 4 members match | the rule's count query has no offset or limit, and its result is the returned total | not executed | `MemberRepositoryTest.CountSupplierUndercounts` | `MemberRepositoryCustomImpl.SearchPageIntended` |
