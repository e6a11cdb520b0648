/** What `search` and `searchPage` promise, stated over any store and any condition. */
module SearchProperties {
  import opened Wrappers
  import opened Entities
  import opened Seqs
  import opened StringUtils
  import opened Expressions
  import opened MemberRepositoryCustomImpl

  /** A result row is the projection of a stored member that matches, and every such projection is a row. */
  lemma SearchRows(store: seq<Member>, c: MemberSearchCondition)
    ensures forall row :: row in Search(store, c) <==>
      exists m :: m in store && Matches(c, m) && row == Project(m)
  {
  }

  /** A username without text filters nothing: the result is that of leaving the username unset. */
  lemma BlankUsernameIsUnset(store: seq<Member>, c: MemberSearchCondition)
    requires !HasText(c.username)
    ensures Search(store, c) == Search(store, c.(username := None))
  {
  }

  /** A team name without text filters nothing: the result is that of leaving the team name unset. */
  lemma BlankTeamNameIsUnset(store: seq<Member>, c: MemberSearchCondition)
    requires !HasText(c.teamName)
    ensures Search(store, c) == Search(store, c.(teamName := None))
  {
  }

  /** A contradictory age range is not an error; it matches nothing. */
  lemma ContradictoryAgeRangeIsEmpty(store: seq<Member>, c: MemberSearchCondition)
    requires c.ageGoe.Some? && c.ageLoe.Some? && c.ageGoe.value > c.ageLoe.value
    ensures Search(store, c) == []
  {
    FilterKeepsNone(store, MatchesOf(c));
  }

  /** `d` keeps every filter `c` activates, with the same value (and may activate more). */
  predicate Narrows(d: MemberSearchCondition, c: MemberSearchCondition) {
    && (HasText(c.username) ==> d.username == c.username)
    && (HasText(c.teamName) ==> d.teamName == c.teamName)
    && (c.ageGoe.Some? ==> d.ageGoe == c.ageGoe)
    && (c.ageLoe.Some? ==> d.ageLoe == c.ageLoe)
  }

  /**
   * Activating more filters never enlarges the result: the narrower search is the wider
   * search's member list filtered once more, so its rows are among the wider one's.
   */
  lemma ExtraFilterNeverEnlarges(store: seq<Member>, c: MemberSearchCondition, d: MemberSearchCondition)
    requires Narrows(d, c)
    ensures Search(store, d) == ProjectAll(Filter(Filter(store, MatchesOf(c)), MatchesOf(d)))
    ensures |Search(store, d)| <= |Search(store, c)|
    ensures forall row :: row in Search(store, d) ==> row in Search(store, c)
  {
    assert forall m :: Matches(d, m) ==> Matches(c, m);
    FilterNarrows(store, MatchesOf(c), MatchesOf(d));
    SearchRows(store, c);
    SearchRows(store, d);
  }

  /** Filtering a store with unique identifiers keeps the identifiers unique. */
  lemma {:induction false} FilterKeepsIdsUnique(s: seq<Member>, p: Member -> bool)
    requires UniqueIds(s)
    ensures UniqueIds(Filter(s, p))
  {
    if s != [] {
      var t := s[1..];
      assert UniqueIds(t) by {
        assert forall i :: 0 <= i < |t| ==> t[i] == s[i + 1];
      }
      FilterKeepsIdsUnique(t, p);
      if p(s[0]) {
        var f := Filter(s, p);
        var ft := Filter(t, p);
        assert f == [s[0]] + ft;
        forall j | 0 <= j < |ft| ensures ft[j].id != s[0].id {
          assert ft[j] in ft;
          var k :| 0 <= k < |t| && t[k] == ft[j];
          assert s[k + 1] == ft[j];
        }
        assert forall i, j :: 0 <= i < j < |f| ==> f[i].id != f[j].id by {
          assert forall j :: 1 <= j < |f| ==> f[j] == ft[j - 1];
        }
      }
    }
  }

  /** Rows carry distinct member identifiers: no member appears twice. */
  lemma SearchRowsDistinct(store: seq<Member>, c: MemberSearchCondition)
    requires UniqueIds(store)
    ensures forall i, j :: 0 <= i < j < |Search(store, c)| ==>
      Search(store, c)[i].memberId != Search(store, c)[j].memberId
  {
    FilterKeepsIdsUnique(store, MatchesOf(c));
  }

  /**
   * A member without a team: its row has null team columns, it is returned (once) exactly
   * when no team-name filter is active and the other filters admit it.
   */
  lemma TeamlessMember(store: seq<Member>, c: MemberSearchCondition, m: Member)
    requires UniqueIds(store) && m in store && m.team.None?
    ensures Project(m).teamId.None? && Project(m).teamName.None?
    ensures Project(m) in Search(store, c) <==> !HasText(c.teamName) && Matches(c.(teamName := None), m)
    ensures forall i, j :: 0 <= i < j < |Search(store, c)| && Search(store, c)[i] == Project(m) ==>
      Search(store, c)[j] != Project(m)
  {
    var r := Search(store, c);
    SearchRows(store, c);
    assert Project(m) in r <==> Matches(c, m) by {
      if Project(m) in r {
        var m' :| m' in store && Matches(c, m') && Project(m) == Project(m');
        assert m'.id == m.id;
        var i :| 0 <= i < |store| && store[i] == m;
        var j :| 0 <= j < |store| && store[j] == m';
        assert i == j;
      }
    }
    SearchRowsDistinct(store, c);
    forall i, j | 0 <= i < j < |r| && r[i] == Project(m) ensures r[j] != Project(m) {
      assert r[i].memberId != r[j].memberId;
    }
  }

  /** A first page at least as large as the result holds the whole result. */
  lemma WholePageIsSearch(store: seq<Member>, c: MemberSearchCondition, p: Pageable)
    requires p.offset == 0 && p.pageSize >= |Search(store, c)|
    ensures SearchPage(store, c, p).content == Search(store, c)
  {
  }

  /**
   * The total `searchPage` returns is the number of matches only when there are none, or
   * when the page is the first one and holds every match.
   */
  lemma SearchPageTotalExactIff(store: seq<Member>, c: MemberSearchCondition, p: Pageable)
    ensures SearchPage(store, c, p).total == |Search(store, c)| <==>
      |Search(store, c)| == 0 || (p.offset == 0 && |Search(store, c)| <= p.pageSize)
  {
  }
}
