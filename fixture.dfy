/**
 * The four members both test classes store before each test. The identifiers are generated
 * by the persistence layer in the tests; no result below depends on their values.
 */
module Fixture {
  import opened Wrappers
  import opened Entities

  const TeamA := Team(1, "teamA")
  const TeamB := Team(2, "teamB")

  const Member1 := Member(1, "member1", 10, Some(TeamA))
  const Member2 := Member(2, "member2", 20, Some(TeamA))
  const Member3 := Member(3, "member3", 30, Some(TeamB))
  const Member4 := Member(4, "member4", 40, Some(TeamB))

  function Members(): (store: seq<Member>)
    ensures UniqueIds(store)
  {
    [Member1, Member2, Member3, Member4]
  }
}
