/** The repository's test scenario, and the page totals `searchPage` produces on the same fixture. */
module MemberRepositoryTest {
  import opened Wrappers
  import opened Entities
  import opened Seqs
  import opened MemberRepositoryCustomImpl
  import Fixture

  /** Ages 35 to 40 in team B: only member4. */
  lemma SearchTest()
    ensures var rows := Search(Fixture.Members(), MemberSearchCondition(None, Some("teamB"), Some(35), Some(40)));
      |rows| == 1 && rows[0].username == "member4"
  {
    var c := MemberSearchCondition(None, Some("teamB"), Some(35), Some(40));
    var s := Fixture.Members();
    assert s[1..][1..][1..] == [Fixture.Member4];
    assert Filter(s, MatchesOf(c)) == [Fixture.Member4];
  }

  /** With no filter, all four members match. */
  lemma SearchAll()
    ensures Search(Fixture.Members(), NoCondition) == ProjectAll(Fixture.Members())
  {
    FilterKeepsAll(Fixture.Members(), MatchesOf(NoCondition));
  }

  /**
   * The total `searchPage` hands to `PageImpl` is the size of the page, not the number of
   * matches: a first page of two out of four matching members reports a total of two.
   */
  lemma PageTotalUndercounts()
    ensures SearchPage(Fixture.Members(), NoCondition, Pageable(0, 2)).total == 2
    ensures |Search(Fixture.Members(), NoCondition)| == 4
  {
    SearchAll();
  }

  /**
   * The count rule `searchPage` passes to `PageableExecutionUtils.getPage` is given a supplier that re-runs the limited page query, so
   * where it calls the supplier it also reports the page size: two, out of four matches.
   */
  lemma CountSupplierUndercounts()
    ensures DiscardedPageTotal(Fixture.Members(), NoCondition, Pageable(0, 2)) == 2
    ensures |Search(Fixture.Members(), NoCondition)| == 4
  {
    SearchAll();
  }

  /**
   * The count rule with a real count on the fixture: a full first page runs the count query,
   * a short last page and a short first page skip it, a page past the end runs it; all
   * four report the four matches.
   */
  lemma IntendedPageTotals()
    ensures CountQueryNeeded(0, 2, |SearchPage(Fixture.Members(), NoCondition, Pageable(0, 2)).content|)
    ensures !CountQueryNeeded(3, 2, |SearchPage(Fixture.Members(), NoCondition, Pageable(3, 2)).content|)
    ensures !CountQueryNeeded(0, 10, |SearchPage(Fixture.Members(), NoCondition, Pageable(0, 10)).content|)
    ensures CountQueryNeeded(10, 2, |SearchPage(Fixture.Members(), NoCondition, Pageable(10, 2)).content|)
    ensures SearchPageIntended(Fixture.Members(), NoCondition, Pageable(0, 2)).total == 4
    ensures SearchPageIntended(Fixture.Members(), NoCondition, Pageable(3, 2)).total == 4
    ensures SearchPageIntended(Fixture.Members(), NoCondition, Pageable(0, 10)).total == 4
    ensures SearchPageIntended(Fixture.Members(), NoCondition, Pageable(10, 2)).total == 4
  {
    SearchAll();
  }
}
