/**
 * The goal table the controller talks to. Its implementation is not part of
 * this model: the class below is a small in-memory stand-in whose contracts say
 * what the controller relies on, each operation scoped by goal id and owner id
 * as the controller calls it. Every mutating call is recorded in `writes`, so
 * that what the controller asked the table to do can be stated and checked.
 */
module GoalStore {
  import opened Wrappers
  import opened Goals

  /** One mutating call issued to the table. */
  datatype Write =
    | Inserted(id: GoalId, user: UserId)
    | Updated(id: GoalId, user: UserId, updates: GoalUpdates)
    | Removed(id: GoalId, user: UserId)
    | Contributed(goalId: GoalId, amount: Amount, date: Option<Instant>)

  /** A record as the table returns it: snake_case amounts only. */
  predicate IsRow(g: Goal) {
    g.targetAmount.None? && g.savedAmount.None?
  }

  /** A partial update: every field the update leaves undefined keeps its value. */
  function ApplyUpdates(g: Goal, u: GoalUpdates): (r: Goal)
    ensures r.id == g.id && r.user_id == g.user_id && r.saved_amount == g.saved_amount
    ensures r.targetAmount == g.targetAmount && r.savedAmount == g.savedAmount
    ensures u.name.Some? ==> r.name == u.name.value
    ensures u.name.None? ==> r.name == g.name
    ensures u.targetAmount.Some? ==> r.target_amount == u.targetAmount
    ensures u.targetAmount.None? ==> r.target_amount == g.target_amount
    ensures u.description.Some? ==> r.description == u.description
    ensures u.description.None? ==> r.description == g.description
    ensures u.endDate.Some? ==> r.end_date == u.endDate
    ensures u.endDate.None? ==> r.end_date == g.end_date
    ensures u.status.Some? ==> r.status == u.status
    ensures u.status.None? ==> r.status == g.status
  {
    g.(name := u.name.GetOr(g.name),
       target_amount := if u.targetAmount.Some? then u.targetAmount else g.target_amount,
       description := if u.description.Some? then u.description else g.description,
       end_date := if u.endDate.Some? then u.endDate else g.end_date,
       status := if u.status.Some? then u.status else g.status)
  }

  /** The update `{ status }` that synchronisation sends. */
  function StatusUpdate(s: Status): GoalUpdates {
    GoalUpdates(None, None, None, None, Some(s))
  }

  /** A status-only update changes the status field and nothing else. */
  lemma StatusUpdateTouchesOnlyStatus(g: Goal, s: Status)
    ensures ApplyUpdates(g, StatusUpdate(s)) == g.(status := Some(s))
  {
  }

  /** The row a new goal gets: nothing saved yet, status active. */
  function NewRow(id: GoalId, user: UserId, name: string, targetAmount: Amount,
                  description: Option<string>, endDate: Option<Instant>): Goal
  {
    Goal(id, user, name, description, Some(targetAmount), Some(0), None, None, endDate, Some(Active))
  }

  /** The row after a contribution of `amount` has been recorded against it. */
  function Credited(g: Goal, amount: Amount): Goal {
    g.(saved_amount := Some(g.saved_amount.GetOr(0) + amount))
  }

  /** The user's goals with id below `n`, in id (that is, insertion) order. */
  function OwnedBelow(goals: map<GoalId, Goal>, user: UserId, n: nat): seq<Goal> {
    if n == 0 then []
    else OwnedBelow(goals, user, n - 1)
         + (if n - 1 in goals && goals[n - 1].user_id == user then [goals[n - 1]] else [])
  }

  /** The ids of a list of goals. */
  function IdsOf(gs: seq<Goal>): set<GoalId> {
    set k | 0 <= k < |gs| :: gs[k].id
  }

  lemma IdsOfSnoc(gs: seq<Goal>, g: Goal)
    ensures IdsOf(gs + [g]) == IdsOf(gs) + {g.id}
  {
    var r := gs + [g];
    forall id | id in IdsOf(r) ensures id in IdsOf(gs) + {g.id} {
      var k :| 0 <= k < |r| && r[k].id == id;
      if k < |gs| { assert gs[k] == r[k]; }
    }
    forall id | id in IdsOf(gs) + {g.id} ensures id in IdsOf(r) {
      if id == g.id {
        assert r[|gs|].id == id;
      } else {
        var k :| 0 <= k < |gs| && gs[k].id == id;
        assert r[k] == gs[k];
      }
    }
  }

  /**
   * The listing holds exactly the user's goals below `n`, each as stored, in
   * strictly increasing id order (so no goal is listed twice).
   */
  lemma {:induction false} OwnedBelowLists(goals: map<GoalId, Goal>, user: UserId, n: nat)
    requires forall id | id in goals :: goals[id].id == id
    ensures forall k | 0 <= k < |OwnedBelow(goals, user, n)| ::
      var g := OwnedBelow(goals, user, n)[k];
      g.id < n && g.id in goals && goals[g.id] == g && g.user_id == user
    ensures forall j, k | 0 <= j < k < |OwnedBelow(goals, user, n)| ::
      OwnedBelow(goals, user, n)[j].id < OwnedBelow(goals, user, n)[k].id
    ensures forall id | id in goals && id < n ::
      (id in IdsOf(OwnedBelow(goals, user, n)) <==> goals[id].user_id == user)
  {
    if n > 0 {
      OwnedBelowLists(goals, user, n - 1);
      var prev := OwnedBelow(goals, user, n - 1);
      var r := OwnedBelow(goals, user, n);
      if n - 1 in goals && goals[n - 1].user_id == user {
        assert r == prev + [goals[n - 1]];
        IdsOfSnoc(prev, goals[n - 1]);
      } else {
        assert r == prev;
      }
    }
  }

  /** The contributions recorded against one goal. */
  function ContributionsOf(cs: seq<Contribution>, goalId: GoalId): (r: seq<Contribution>)
    ensures forall c | c in r :: c in cs && c.goal_id == goalId
    ensures forall c | c in cs && c.goal_id == goalId :: c in r
  {
    if cs == [] then []
    else (if cs[0].goal_id == goalId then [cs[0]] else []) + ContributionsOf(cs[1..], goalId)
  }

  /** The contributions that remain once one goal's contributions are removed. */
  function WithoutGoal(cs: seq<Contribution>, goalId: GoalId): (r: seq<Contribution>)
    ensures forall c | c in r :: c in cs && c.goal_id != goalId
    ensures forall c | c in cs && c.goal_id != goalId :: c in r
  {
    if cs == [] then []
    else (if cs[0].goal_id != goalId then [cs[0]] else []) + WithoutGoal(cs[1..], goalId)
  }

  /**
   * The contributions of one goal and those of every other goal split the
   * recorded contributions between them: each one lands on exactly one side.
   */
  lemma {:induction false} ContributionsPartition(cs: seq<Contribution>, goalId: GoalId)
    ensures multiset(ContributionsOf(cs, goalId)) + multiset(WithoutGoal(cs, goalId)) == multiset(cs)
  {
    if cs != [] {
      ContributionsPartition(cs[1..], goalId);
      assert cs == [cs[0]] + cs[1..];
    }
  }

  /** Every goal that belongs to someone other than `user` is still there, unchanged. */
  ghost predicate OthersUntouched(before: map<GoalId, Goal>, after: map<GoalId, Goal>, user: UserId) {
    forall id | id in before && before[id].user_id != user :: id in after && after[id] == before[id]
  }

  class Store {
    var goals: map<GoalId, Goal>
    var contributions: seq<Contribution>
    var nextGoalId: GoalId
    var nextContributionId: nat
    var writes: seq<Write>

    /** Keys are ids, ids are below the next fresh id, rows are snake_case, no contribution outlives its goal. */
    ghost predicate Valid()
      reads this
    {
      && (forall id | id in goals :: goals[id].id == id && id < nextGoalId && IsRow(goals[id]))
      && (forall c | c in contributions :: c.goal_id in goals)
    }

    constructor ()
      ensures Valid()
      ensures goals == map[] && contributions == [] && writes == []
      ensures nextGoalId == 0 && nextContributionId == 0
    {
      goals, contributions, writes := map[], [], [];
      nextGoalId, nextContributionId := 0, 0;
    }

    /** The goal `id` exists and belongs to `user`. */
    predicate Owns(id: GoalId, user: UserId)
      reads this
    {
      id in goals && goals[id].user_id == user
    }

    /** getGoalById(id, userId): the goal only if it belongs to the user. */
    method GetGoalById(id: GoalId, user: UserId) returns (r: Option<Goal>)
      requires Valid()
      ensures r.Some? <==> Owns(id, user)
      ensures r.Some? ==> r.value == goals[id] && r.value.id == id && r.value.user_id == user
    {
      r := if id in goals && goals[id].user_id == user then Some(goals[id]) else None;
    }

    /** getGoalsByUser(userId): the user's goals in insertion order. */
    method GetGoalsByUser(user: UserId) returns (r: seq<Goal>)
      ensures r == OwnedBelow(goals, user, nextGoalId)
    {
      r := [];
      var i := 0;
      while i < nextGoalId
        invariant i <= nextGoalId
        invariant r == OwnedBelow(goals, user, i)
      {
        if i in goals && goals[i].user_id == user {
          r := r + [goals[i]];
        }
        i := i + 1;
      }
    }

    /** createGoal: inserts a new row under a fresh id and returns it. */
    method CreateGoal(user: UserId, name: string, targetAmount: Amount,
                      description: Option<string>, endDate: Option<Instant>) returns (g: Goal)
      requires Valid()
      modifies this
      ensures Valid()
      ensures g == NewRow(old(nextGoalId), user, name, targetAmount, description, endDate)
      ensures g.id !in old(goals)
      ensures goals == old(goals)[g.id := g] && nextGoalId == old(nextGoalId) + 1
      ensures contributions == old(contributions) && nextContributionId == old(nextContributionId)
      ensures writes == old(writes) + [Inserted(g.id, user)]
    {
      g := NewRow(nextGoalId, user, name, targetAmount, description, endDate);
      goals := goals[g.id := g];
      nextGoalId := nextGoalId + 1;
      writes := writes + [Inserted(g.id, user)];
    }

    /** updateGoal(id, userId, updates): changes the row only if it belongs to the user. */
    method UpdateGoal(id: GoalId, user: UserId, u: GoalUpdates) returns (r: Option<Goal>)
      requires Valid()
      modifies this
      ensures Valid()
      ensures r.Some? <==> old(Owns(id, user))
      ensures goals == if r.Some? then old(goals)[id := r.value] else old(goals)
      ensures r.Some? ==> r.value == ApplyUpdates(old(goals)[id], u)
      ensures contributions == old(contributions)
      ensures nextGoalId == old(nextGoalId) && nextContributionId == old(nextContributionId)
      ensures writes == old(writes) + [Updated(id, user, u)]
    {
      if id in goals && goals[id].user_id == user {
        var g := ApplyUpdates(goals[id], u);
        goals := goals[id := g];
        r := Some(g);
      } else {
        r := None;
      }
      writes := writes + [Updated(id, user, u)];
    }

    /** deleteGoal(id, userId): removes the row, and its contributions, only if it belongs to the user. */
    method DeleteGoal(id: GoalId, user: UserId) returns (deleted: bool)
      requires Valid()
      modifies this
      ensures Valid()
      ensures deleted == old(Owns(id, user))
      ensures goals == if deleted then old(goals) - {id} else old(goals)
      ensures contributions == if deleted then WithoutGoal(old(contributions), id) else old(contributions)
      ensures nextGoalId == old(nextGoalId) && nextContributionId == old(nextContributionId)
      ensures writes == old(writes) + [Removed(id, user)]
    {
      deleted := id in goals && goals[id].user_id == user;
      if deleted {
        goals := goals - {id};
        contributions := WithoutGoal(contributions, id);
      }
      writes := writes + [Removed(id, user)];
    }

    /** addGoalContribution: records the contribution and credits the goal's saved amount. */
    method AddGoalContribution(goalId: GoalId, amount: Amount, date: Option<Instant>) returns (ok: bool)
      requires Valid()
      modifies this
      ensures Valid()
      ensures ok == (goalId in old(goals))
      ensures goals == if ok then old(goals)[goalId := Credited(old(goals)[goalId], amount)] else old(goals)
      ensures contributions == if ok
        then old(contributions) + [Contribution(old(nextContributionId), goalId, amount, date)]
        else old(contributions)
      ensures nextGoalId == old(nextGoalId)
      ensures nextContributionId == if ok then old(nextContributionId) + 1 else old(nextContributionId)
      ensures writes == old(writes) + [Contributed(goalId, amount, date)]
    {
      ok := goalId in goals;
      if ok {
        goals := goals[goalId := Credited(goals[goalId], amount)];
        contributions := contributions + [Contribution(nextContributionId, goalId, amount, date)];
        nextContributionId := nextContributionId + 1;
      }
      writes := writes + [Contributed(goalId, amount, date)];
    }

    /** getGoalContributions(goalId, userId): the goal's contributions, only if it belongs to the user. */
    method GetGoalContributions(goalId: GoalId, user: UserId) returns (r: seq<Contribution>)
      ensures r == if Owns(goalId, user) then ContributionsOf(contributions, goalId) else []
    {
      r := if goalId in goals && goals[goalId].user_id == user then ContributionsOf(contributions, goalId) else [];
    }
  }
}
