/**
 * QueryDSL boolean expressions over a member and its left-joined team, the `where(...)`
 * argument list that ignores null expressions, and the execution of `selectFrom(member)`.
 */
module Expressions {
  import opened Wrappers
  import opened Entities
  import opened Seqs

  /** A `BooleanExpression` built by the code being modelled. */
  datatype Clause =
    | UsernameIs(username: string)   // member.username.eq(..)
    | TeamNameIs(teamName: string)   // team.name.eq(..), on the left-joined team
    | AgeAtLeast(lower: int)         // member.age.goe(..)
    | AgeAtMost(upper: int)          // member.age.loe(..)
    | AgeIs(age: int)                // member.age.eq(..)
    | And(left: Clause, right: Clause)
  {
    /**
     * Whether the clause is true of the row formed by `m` and its team. A comparison with
     * the null team name of a member without a team is not true, as in SQL.
     */
    predicate Holds(m: Member) {
      match this
      case UsernameIs(u) => m.username == u
      case TeamNameIs(n) => m.team.Some? && m.team.value.name == n
      case AgeAtLeast(v) => m.age >= v
      case AgeAtMost(v) => m.age <= v
      case AgeIs(v) => m.age == v
      case And(l, r) => l.Holds(m) && r.Holds(m)
    }
  }

  /** A nullable expression restricts nothing when it is null. */
  predicate Admits(c: Option<Clause>, m: Member) {
    c.None? || c.value.Holds(m)
  }

  /** The conjunction of a list of clauses; the empty list restricts nothing. */
  predicate AllHold(cs: seq<Clause>, m: Member) {
    forall i :: 0 <= i < |cs| ==> cs[i].Holds(m)
  }

  /** Conjoining one more clause in front. */
  lemma AllHoldCons(c: Clause, rest: seq<Clause>)
    ensures forall m :: AllHold([c] + rest, m) <==> c.Holds(m) && AllHold(rest, m)
  {
    forall m ensures AllHold([c] + rest, m) <==> c.Holds(m) && AllHold(rest, m) {
      var r := [c] + rest;
      assert forall i :: 1 <= i < |r| ==> r[i] == rest[i - 1];
      assert forall j :: 0 <= j < |rest| ==> rest[j] == r[j + 1];
      assert r[0] == c;
    }
  }

  function ClauseFilter(cs: seq<Clause>): Member -> bool {
    m => AllHold(cs, m)
  }

  /** The clauses `where(args...)` keeps: every argument that is not null, in order. */
  function WhereArgs(args: seq<Option<Clause>>): (r: seq<Clause>)
    ensures |r| <= |args|
    ensures forall c :: c in r <==> Some(c) in args
    ensures forall m :: AllHold(r, m) <==> forall i :: 0 <= i < |args| ==> Admits(args[i], m)
  {
    if args == [] then []
    else
      var rest := WhereArgs(args[1..]);
      assert args == [args[0]] + args[1..];
      assert forall i :: 1 <= i < |args| ==> args[i] == args[1..][i - 1];
      if args[0].Some? then
        AllHoldCons(args[0].value, rest);
        [args[0].value] + rest
      else rest
  }

  /** `selectFrom(member).where(cs).fetch()`: the stored members the clauses admit, in store order. */
  function Where(store: seq<Member>, cs: seq<Clause>): (r: seq<Member>)
    ensures forall m :: m in r <==> m in store && AllHold(cs, m)
    ensures forall m :: multiset(r)[m] == if AllHold(cs, m) then multiset(store)[m] else 0
    ensures cs == [] ==> r == store
  {
    FilterMultiset(store, ClauseFilter(cs));
    var r := Filter(store, ClauseFilter(cs));
    assert cs == [] ==> r == store by {
      if cs == [] {
        FilterKeepsAll(store, ClauseFilter(cs));
      }
    }
    r
  }
}
