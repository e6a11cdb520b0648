/**
 * The dynamic-query helpers of the projection tests: a `BooleanBuilder` filled clause by
 * clause, and nullable clauses combined with `.and`. Both select whole members, without a join.
 */
module QuerydslProjectionTests {
  import opened Wrappers
  import opened Entities
  import opened Seqs
  import opened Expressions
  import MemberRepositoryCustomImpl
  import Fixture

  /** What dereferencing `null` raises. */
  datatype Exception = NullPointerException

  /** QueryDSL's `BooleanBuilder`: a predicate that starts null and is extended by `and`. */
  class BooleanBuilder {
    var value: Option<Clause>

    constructor ()
      ensures value == None
    {
      value := None;
    }

    /** Whether the builder's current value admits `m`; an empty builder admits every member. */
    predicate Admits(m: Member)
      reads this
    {
      Expressions.Admits(value, m)
    }

    /** `and(right)`: the first clause becomes the value, later ones are conjoined to it. */
    method And(right: Clause)
      modifies this
      ensures value == Some(if old(value).None? then right else Expressions.And(old(value).value, right))
      ensures forall m :: Admits(m) <==> old(Admits(m)) && right.Holds(m)
    {
      if value.None? {
        value := Some(right);
      } else {
        value := Some(Expressions.And(value.value, right));
      }
    }
  }

  /** What the two parameters ask of a member: null asks nothing, any other value (even "") equality. */
  predicate ParamsMatch(usernameParam: Option<string>, ageParam: Option<int>, m: Member) {
    && (usernameParam.Some? ==> m.username == usernameParam.value)
    && (ageParam.Some? ==> m.age == ageParam.value)
  }

  function ParamsFilter(usernameParam: Option<string>, ageParam: Option<int>): Member -> bool {
    m => ParamsMatch(usernameParam, ageParam, m)
  }

  /** `searchMember`: the stored members the non-null parameters admit, in store order. */
  method SearchMember(store: seq<Member>, usernameParam: Option<string>, ageParam: Option<int>)
    returns (result: seq<Member>)
    ensures result == Filter(store, ParamsFilter(usernameParam, ageParam))
    ensures usernameParam.None? && ageParam.None? ==> result == store
  {
    var builder := new BooleanBuilder();
    if usernameParam.Some? {
      builder.And(UsernameIs(usernameParam.value));
    }
    assert forall m :: builder.Admits(m) <==> ParamsMatch(usernameParam, None, m);
    if ageParam.Some? {
      builder.And(AgeIs(ageParam.value));
    }
    assert forall m :: builder.Admits(m) <==> ParamsMatch(usernameParam, ageParam, m);
    var args := [builder.value];
    var cs := WhereArgs(args);
    assert forall m :: (forall i :: 0 <= i < |args| ==> Expressions.Admits(args[i], m)) <==> builder.Admits(m);
    FilterExt(store, ClauseFilter(cs), ParamsFilter(usernameParam, ageParam));
    if usernameParam.None? && ageParam.None? {
      FilterKeepsAll(store, ParamsFilter(usernameParam, ageParam));
    }
    result := Where(store, cs);
  }

  /** `usernameEq`: no clause for null, an equality clause for any other username. */
  function UsernameEq(usernameParam: Option<string>): (r: Option<Clause>)
    ensures r.Some? <==> usernameParam.Some?
    ensures forall m :: Admits(r, m) <==> (usernameParam.Some? ==> m.username == usernameParam.value)
  {
    if usernameParam.None? then None else Some(UsernameIs(usernameParam.value))
  }

  /** `ageEq`: no clause for null, an age equality clause otherwise. */
  function AgeEq(ageParam: Option<int>): (r: Option<Clause>)
    ensures r.Some? <==> ageParam.Some?
    ensures forall m :: Admits(r, m) <==> (ageParam.Some? ==> m.age == ageParam.value)
  {
    if ageParam.None? then None else Some(AgeIs(ageParam.value))
  }

  /**
   * `allEq`: `usernameEq(..).and(ageEq(..))`. A null username makes the receiver null, so the
   * call throws; `.and` of a null argument returns the receiver unchanged.
   */
  function AllEq(usernameParam: Option<string>, ageParam: Option<int>): (r: Result<Clause, Exception>)
    ensures r.Failure? <==> usernameParam.None?
    ensures r.Success? ==> forall m :: r.value.Holds(m) <==> ParamsMatch(usernameParam, ageParam, m)
  {
    match UsernameEq(usernameParam)
    case None => Failure(NullPointerException)
    case Some(left) =>
      var right := AgeEq(ageParam);
      if right.None? then Success(left) else Success(Expressions.And(left, right.value))
  }

  /** `searchMember2`: `where(allEq(..))`, failing where `allEq` throws. */
  function SearchMember2(store: seq<Member>, usernameParam: Option<string>, ageParam: Option<int>)
    : (r: Result<seq<Member>, Exception>)
    ensures r.Failure? <==> usernameParam.None?
    ensures r.Success? ==> r.value == Filter(store, ParamsFilter(usernameParam, ageParam))
  {
    match AllEq(usernameParam, ageParam)
    case Failure(e) => Failure(e)
    case Success(p) =>
      var cs := WhereArgs([Some(p)]);
      FilterExt(store, ClauseFilter(cs), ParamsFilter(usernameParam, ageParam));
      Success(Where(store, cs))
  }

  /**
   * The helpers check for null only, so an empty username is an active filter here, while
   * the repository's `hasText` check drops it.
   */
  lemma EmptyUsernameIsActive()
    ensures UsernameEq(Some("")).Some?
    ensures MemberRepositoryCustomImpl.UsernameEq(Some("")).None?
  {
  }

  /** `dynamicQuery_BooleanBuilder`: ("member1", 10) finds exactly one fixture member. */
  method DynamicQueryBooleanBuilder() returns (result: seq<Member>)
    ensures |result| == 1 && result[0] == Fixture.Member1
  {
    var s := Fixture.Members();
    result := SearchMember(s, Some("member1"), Some(10));
    OnlyMember1Matches();
  }

  /** `dynamicQuery_WhereParam`: ("member1", 10) finds exactly one fixture member. */
  lemma DynamicQueryWhereParam()
    ensures var r := SearchMember2(Fixture.Members(), Some("member1"), Some(10));
      r.Success? && |r.value| == 1 && r.value[0] == Fixture.Member1
  {
    OnlyMember1Matches();
  }

  /** Among the fixture, only member1 has username "member1" and age 10. */
  lemma OnlyMember1Matches()
    ensures Filter(Fixture.Members(), ParamsFilter(Some("member1"), Some(10))) == [Fixture.Member1]
  {
    var s := Fixture.Members();
    var pf := ParamsFilter(Some("member1"), Some(10));
    var rest := [Fixture.Member2, Fixture.Member3, Fixture.Member4];
    assert s[1..] == rest;
    assert pf(Fixture.Member1);
    assert forall x :: x in rest ==> !pf(x);
    FilterKeepsNone(rest, pf);
  }
}
