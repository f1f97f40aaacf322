/**
 * The goal controller: status synchronisation against the goal table and the
 * six request handlers. A handler receives the authenticated user's id, the
 * request's parameters, the outcome of request validation as `valid`, and the
 * current instant `now`; it answers with a status code and a payload.
 */
module GoalController {
  import opened Wrappers
  import opened Goals
  import opened GoalStatus
  import opened GoalStore

  datatype Payload =
    | GoalList(goals: seq<Goal>)
    | OneGoal(goal: Goal)
    | Message(text: string)
    | ContributionList(contributions: seq<Contribution>)
    | ValidationErrors

  datatype Response = Response(code: int, payload: Payload)

  const NotFound := Response(404, Message("Goal not found"))
  const Unprocessable := Response(422, ValidationErrors)

  // ---------------------------------------------------------------------------
  // Synchronisation
  // ---------------------------------------------------------------------------

  /** The writes synchronising `g` issues: one status-only update, scoped by id and owner, or none. */
  function SyncWrites(g: Goal, now: Instant): (w: seq<Write>)
    ensures |w| <= 1
    ensures w != [] <==> NeedsWrite(g, now)
  {
    if NeedsWrite(g, now)
    then [Updated(g.id, g.user_id, StatusUpdate(DetermineGoalStatus(Some(g), now)))]
    else []
  }

  /** The table after synchronising goals whose ids are in `ids`. */
  function StatusSynced(goals: map<GoalId, Goal>, ids: set<GoalId>, now: Instant): map<GoalId, Goal> {
    map id | id in goals :: if id in ids then SyncedGoal(goals[id], now) else goals[id]
  }

  /** A second synchronisation issues no write. */
  lemma SecondSyncWritesNothing(g: Goal, now: Instant)
    ensures SyncWrites(SyncedGoal(g, now), now) == []
  {
  }

  /**
   * syncGoalStatus: derives the status; when it differs from the stored one,
   * writes only the status of the entry keyed by the goal's id and owner, and
   * returns the goal with the derived status merged in.
   */
  method SyncGoalStatus(store: Store, goal: Goal, now: Instant) returns (r: Goal)
    requires store.Valid()
    modifies store
    ensures store.Valid()
    ensures r == SyncedGoal(goal, now)
    ensures store.writes == old(store.writes) + SyncWrites(goal, now)
    ensures store.goals ==
      if NeedsWrite(goal, now) && old(store.Owns(goal.id, goal.user_id))
      then old(store.goals)[goal.id := old(store.goals)[goal.id].(status := r.status)]
      else old(store.goals)
    ensures store.contributions == old(store.contributions)
    ensures store.nextGoalId == old(store.nextGoalId)
    ensures store.nextContributionId == old(store.nextContributionId)
  {
    var computedStatus := DetermineGoalStatus(Some(goal), now);
    if goal.status != Some(computedStatus) {
      var _ := store.UpdateGoal(goal.id, goal.user_id, StatusUpdate(computedStatus));
      if goal.id in old(store.goals) {
        StatusUpdateTouchesOnlyStatus(old(store.goals)[goal.id], computedStatus);
      }
      r := goal.(status := Some(computedStatus));
    } else {
      r := goal;
    }
  }

  /** Synchronising a goal exactly as stored leaves the table with that goal synchronised. */
  lemma SyncStoredStep(goals: map<GoalId, Goal>, after: map<GoalId, Goal>, g: Goal, now: Instant)
    requires g.id in goals && goals[g.id] == g
    requires after ==
      if NeedsWrite(g, now) then goals[g.id := goals[g.id].(status := SyncedGoal(g, now).status)] else goals
    ensures after == goals[g.id := SyncedGoal(g, now)]
  {
  }

  // ---------------------------------------------------------------------------
  // Handlers
  // ---------------------------------------------------------------------------

  /** What listGoals returns for a list of goals: each synchronised, then normalised. */
  function Presented(gs: seq<Goal>, now: Instant): (r: seq<Goal>)
    ensures |r| == |gs|
    ensures forall k | 0 <= k < |gs| :: r[k] == NormalizeAmounts(SyncedGoal(gs[k], now))
  {
    if gs == [] then [] else Presented(gs[..|gs| - 1], now) + [NormalizeAmounts(SyncedGoal(gs[|gs| - 1], now))]
  }

  /** The writes listGoals issues, in list order. */
  function ListWrites(gs: seq<Goal>, now: Instant): seq<Write> {
    if gs == [] then [] else ListWrites(gs[..|gs| - 1], now) + SyncWrites(gs[|gs| - 1], now)
  }

  /** The table after listGoals: every goal of the user carries its derived status, others are untouched. */
  function SyncOwned(goals: map<GoalId, Goal>, user: UserId, now: Instant): map<GoalId, Goal> {
    map id | id in goals :: if goals[id].user_id == user then SyncedGoal(goals[id], now) else goals[id]
  }

  /** listGoals: fetches the user's goals and synchronises and normalises each, one after another. */
  method ListGoals(store: Store, user: UserId, now: Instant) returns (resp: Response)
    requires store.Valid()
    modifies store
    ensures store.Valid()
    ensures resp == Response(200, GoalList(Presented(OwnedBelow(old(store.goals), user, old(store.nextGoalId)), now)))
    ensures forall k | 0 <= k < |resp.payload.goals| :: StatusConsistent(resp.payload.goals[k], now)
    ensures store.goals == SyncOwned(old(store.goals), user, now)
    ensures OthersUntouched(old(store.goals), store.goals, user)
    ensures store.writes == old(store.writes) + ListWrites(OwnedBelow(old(store.goals), user, old(store.nextGoalId)), now)
    ensures store.contributions == old(store.contributions)
    ensures store.nextGoalId == old(store.nextGoalId) && store.nextContributionId == old(store.nextContributionId)
  {
    var goals := store.GetGoalsByUser(user);
    ghost var before := store.goals;
    var enrichedGoals := SyncEach(store, goals, user, now);
    SyncedAllOwned(before, user, old(store.nextGoalId), now);
    OwnedBelowLists(before, user, old(store.nextGoalId));
    resp := Response(200, GoalList(enrichedGoals));
    forall k | 0 <= k < |goals| ensures StatusConsistent(enrichedGoals[k], now) {
      assert IsRow(before[goals[k].id]);
      PresentedGoalIsConsistent(goals[k], now);
    }
  }

  /** Synchronises and then normalises each listed goal, one goal after another. */
  method SyncEach(store: Store, goals: seq<Goal>, ghost user: UserId, now: Instant) returns (enrichedGoals: seq<Goal>)
    requires store.Valid()
    requires goals == OwnedBelow(store.goals, user, store.nextGoalId)
    modifies store
    ensures store.Valid()
    ensures enrichedGoals == Presented(goals, now)
    ensures store.goals == StatusSynced(old(store.goals), IdsOf(goals), now)
    ensures store.writes == old(store.writes) + ListWrites(goals, now)
    ensures store.contributions == old(store.contributions)
    ensures store.nextGoalId == old(store.nextGoalId) && store.nextContributionId == old(store.nextContributionId)
  {
    ghost var before := store.goals;
    enrichedGoals := [];
    var i := 0;
    while i < |goals|
      invariant 0 <= i <= |goals|
      invariant store.Valid()
      invariant enrichedGoals == Presented(goals[..i], now)
      invariant store.goals == StatusSynced(before, IdsOf(goals[..i]), now)
      invariant store.writes == old(store.writes) + ListWrites(goals[..i], now)
      invariant store.contributions == old(store.contributions)
      invariant store.nextGoalId == old(store.nextGoalId) && store.nextContributionId == old(store.nextContributionId)
    {
      SyncNextIsStored(before, user, store.nextGoalId, i);
      ghost var written := ListWrites(goals[..i], now);
      var synced := SyncGoalStatus(store, goals[i], now);
      SyncNextStep(before, IdsOf(goals[..i]), goals[i], now, store.goals);
      PrefixStep(goals, i, now);
      AppendAssociates(old(store.writes), written, SyncWrites(goals[i], now));
      enrichedGoals := enrichedGoals + [NormalizeGoal(Some(synced)).value];
      i := i + 1;
    }
    assert goals[..i] == goals;
  }

  lemma AppendAssociates(a: seq<Write>, b: seq<Write>, c: seq<Write>)
    ensures a + b + c == a + (b + c)
  {
  }

  /** Before the `i`-th listed goal is synchronised, the table still holds it as listed. */
  lemma SyncNextIsStored(before: map<GoalId, Goal>, user: UserId, n: nat, i: nat)
    requires forall id | id in before :: before[id].id == id
    requires i < |OwnedBelow(before, user, n)|
    ensures var gs := OwnedBelow(before, user, n);
      gs[i].id in before && before[gs[i].id] == gs[i] && gs[i].id !in IdsOf(gs[..i])
  {
    var gs := OwnedBelow(before, user, n);
    OwnedBelowLists(before, user, n);
    forall k | 0 <= k < i ensures gs[..i][k].id != gs[i].id {
      assert gs[k].id < gs[i].id;
    }
  }

  /** Synchronising one more goal, as stored before any was synchronised, extends the synchronised set by it. */
  lemma SyncNextStep(before: map<GoalId, Goal>, ids: set<GoalId>, g: Goal, now: Instant, after: map<GoalId, Goal>)
    requires g.id in before && before[g.id] == g && g.id !in ids
    requires var current := StatusSynced(before, ids, now);
      after ==
        if NeedsWrite(g, now) && g.id in current && current[g.id].user_id == g.user_id
        then current[g.id := current[g.id].(status := SyncedGoal(g, now).status)]
        else current
    ensures after == StatusSynced(before, ids + {g.id}, now)
  {
  }

  /** Extending the processed prefix by one goal extends the listing, the writes and the ids by it. */
  lemma PrefixStep(gs: seq<Goal>, i: nat, now: Instant)
    requires i < |gs|
    ensures Presented(gs[..i + 1], now) == Presented(gs[..i], now) + [NormalizeAmounts(SyncedGoal(gs[i], now))]
    ensures ListWrites(gs[..i + 1], now) == ListWrites(gs[..i], now) + SyncWrites(gs[i], now)
    ensures IdsOf(gs[..i + 1]) == IdsOf(gs[..i]) + {gs[i].id}
  {
    assert gs[..i + 1] == gs[..i] + [gs[i]];
    assert gs[..i + 1][..i] == gs[..i];
    IdsOfSnoc(gs[..i], gs[i]);
  }

  /** Once every listed goal is synchronised, exactly the user's goals are. */
  lemma SyncedAllOwned(before: map<GoalId, Goal>, user: UserId, n: nat, now: Instant)
    requires forall id | id in before :: before[id].id == id && id < n
    ensures StatusSynced(before, IdsOf(OwnedBelow(before, user, n)), now) == SyncOwned(before, user, now)
  {
    OwnedBelowLists(before, user, n);
  }

  /** createGoalHandler: inserts the goal, synchronises it once and returns it normalised with 201. */
  method CreateGoalHandler(store: Store, valid: bool, user: UserId, name: string, targetAmount: Amount,
                           description: Option<string>, endDate: Option<Instant>, now: Instant)
    returns (resp: Response)
    requires store.Valid()
    modifies store
    ensures store.Valid()
    ensures !valid ==> resp == Unprocessable && unchanged(store)
    ensures valid ==>
      var created := NewRow(old(store.nextGoalId), user, name, targetAmount, description, endDate);
      && resp == Response(201, OneGoal(NormalizeAmounts(SyncedGoal(created, now))))
      && store.goals == old(store.goals)[created.id := SyncedGoal(created, now)]
      && store.writes == old(store.writes) + [Inserted(created.id, user)] + SyncWrites(created, now)
      && store.contributions == old(store.contributions)
      && store.nextGoalId == old(store.nextGoalId) + 1 && store.nextContributionId == old(store.nextContributionId)
    ensures resp.payload.OneGoal? ==> StatusConsistent(resp.payload.goal, now)
    ensures OthersUntouched(old(store.goals), store.goals, user)
  {
    if !valid {
      return Unprocessable;
    }
    var goal := store.CreateGoal(user, name, targetAmount, description, endDate);
    ghost var current := store.goals;
    var synced := SyncGoalStatus(store, goal, now);
    SyncStoredStep(current, store.goals, goal, now);
    var normalized := NormalizeGoal(Some(synced)).value;
    PresentedGoalIsConsistent(goal, now);
    resp := Response(201, OneGoal(normalized));
  }

  /**
   * updateGoalHandler: 404 unless the goal belongs to the user; otherwise applies
   * the partial update, synchronises, and returns the goal normalised. The
   * status returned is the derived one, whatever status the request supplied.
   */
  method UpdateGoalHandler(store: Store, valid: bool, id: GoalId, user: UserId, updates: GoalUpdates, now: Instant)
    returns (resp: Response)
    requires store.Valid()
    modifies store
    ensures store.Valid()
    ensures !valid ==> resp == Unprocessable && unchanged(store)
    ensures valid && !old(store.Owns(id, user)) ==> resp == NotFound && unchanged(store)
    ensures valid && old(store.Owns(id, user)) ==>
      var updated := ApplyUpdates(old(store.goals)[id], updates);
      && resp == Response(200, OneGoal(NormalizeAmounts(SyncedGoal(updated, now))))
      && store.goals == old(store.goals)[id := SyncedGoal(updated, now)]
      && store.writes == old(store.writes) + [Updated(id, user, updates)] + SyncWrites(updated, now)
      && store.contributions == old(store.contributions)
      && store.nextGoalId == old(store.nextGoalId) && store.nextContributionId == old(store.nextContributionId)
    ensures resp.payload.OneGoal? ==> StatusConsistent(resp.payload.goal, now)
    ensures OthersUntouched(old(store.goals), store.goals, user)
  {
    if !valid {
      return Unprocessable;
    }
    var existing := store.GetGoalById(id, user);
    if existing.None? {
      return NotFound;
    }
    var goal := store.UpdateGoal(id, user, updates);
    ghost var current := store.goals;
    var synced := SyncGoalStatus(store, goal.value, now);
    SyncStoredStep(current, store.goals, goal.value, now);
    var normalized := NormalizeGoal(Some(synced)).value;
    PresentedGoalIsConsistent(goal.value, now);
    resp := Response(200, OneGoal(normalized));
  }

  /** deleteGoalHandler: 404 unless the goal belongs to the user; otherwise deletes it. */
  method DeleteGoalHandler(store: Store, id: GoalId, user: UserId) returns (resp: Response)
    requires store.Valid()
    modifies store
    ensures store.Valid()
    ensures !old(store.Owns(id, user)) ==> resp == NotFound && unchanged(store)
    ensures old(store.Owns(id, user)) ==>
      && resp == Response(200, Message("Goal deleted"))
      && store.goals == old(store.goals) - {id}
      && store.contributions == WithoutGoal(old(store.contributions), id)
      && store.writes == old(store.writes) + [Removed(id, user)]
      && store.nextGoalId == old(store.nextGoalId) && store.nextContributionId == old(store.nextContributionId)
    ensures OthersUntouched(old(store.goals), store.goals, user)
  {
    var existing := store.GetGoalById(id, user);
    if existing.None? {
      return NotFound;
    }
    var _ := store.DeleteGoal(id, user);
    resp := Response(200, Message("Goal deleted"));
  }

  /**
   * addContributionHandler: 404 unless the goal belongs to the user; otherwise
   * records the contribution, reads the goal again, synchronises it and returns
   * it normalised with 201.
   */
  method AddContributionHandler(store: Store, valid: bool, id: GoalId, user: UserId, amount: Amount,
                                contributionDate: Option<Instant>, now: Instant)
    returns (resp: Response)
    requires store.Valid()
    modifies store
    ensures store.Valid()
    ensures !valid ==> resp == Unprocessable && unchanged(store)
    ensures valid && !old(store.Owns(id, user)) ==> resp == NotFound && unchanged(store)
    ensures valid && old(store.Owns(id, user)) ==>
      var credited := Credited(old(store.goals)[id], amount);
      && resp == Response(201, OneGoal(NormalizeAmounts(SyncedGoal(credited, now))))
      && store.goals == old(store.goals)[id := SyncedGoal(credited, now)]
      && store.contributions
         == old(store.contributions) + [Contribution(old(store.nextContributionId), id, amount, contributionDate)]
      && store.writes == old(store.writes) + [Contributed(id, amount, contributionDate)] + SyncWrites(credited, now)
      && store.nextGoalId == old(store.nextGoalId) && store.nextContributionId == old(store.nextContributionId) + 1
    ensures resp.payload.OneGoal? ==> StatusConsistent(resp.payload.goal, now)
    ensures OthersUntouched(old(store.goals), store.goals, user)
  {
    if !valid {
      return Unprocessable;
    }
    var goal := store.GetGoalById(id, user);
    if goal.None? {
      return NotFound;
    }
    var _ := store.AddGoalContribution(goal.value.id, amount, contributionDate);
    var updatedGoal := store.GetGoalById(id, user);
    ghost var current := store.goals;
    var synced := SyncGoalStatus(store, updatedGoal.value, now);
    SyncStoredStep(current, store.goals, updatedGoal.value, now);
    var normalized := NormalizeGoal(Some(synced)).value;
    PresentedGoalIsConsistent(updatedGoal.value, now);
    resp := Response(201, OneGoal(normalized));
  }

  /** listContributions: 404 unless the goal belongs to the user; otherwise its contributions. Reads only. */
  method ListContributions(store: Store, id: GoalId, user: UserId) returns (resp: Response)
    requires store.Valid()
    ensures !store.Owns(id, user) ==> resp == NotFound
    ensures store.Owns(id, user) ==> resp == Response(200, ContributionList(ContributionsOf(store.contributions, id)))
  {
    var goal := store.GetGoalById(id, user);
    if goal.None? {
      return NotFound;
    }
    var contributions := store.GetGoalContributions(id, user);
    resp := Response(200, ContributionList(contributions));
  }

  // ---------------------------------------------------------------------------
  // Scenarios, derived from the handlers' contracts alone
  // ---------------------------------------------------------------------------

  /** A goal of 100 with no end date starts active; a contribution of 100 makes it achieved. */
  method ContributionReachesTarget() returns (created: Response, contributed: Response)
    ensures created.code == 201 && created.payload.OneGoal? && created.payload.goal.status == Some(Active)
    ensures contributed.code == 201 && contributed.payload.OneGoal?
    ensures contributed.payload.goal.status == Some(Achieved)
    ensures contributed.payload.goal.saved_amount == Some(100)
  {
    var store := new Store();
    created := CreateGoalHandler(store, true, 1, "laptop", 100, None, None, 0);
    contributed := AddContributionHandler(store, true, 0, 1, 100, None, 0);
  }

  /** A goal whose end date has passed is expired when it is first listed. */
  method PastDeadlineIsExpiredOnList() returns (listed: Response)
    ensures listed.code == 200 && listed.payload.GoalList? && |listed.payload.goals| == 1
    ensures listed.payload.goals[0].status == Some(Expired)
  {
    var store := new Store();
    // 2020-01-01 and 2026-10-15, in milliseconds since the epoch
    var endDate, today := 1577836800000, 1792022400000;
    var goal := store.CreateGoal(1, "trip", 100, None, Some(endDate));
    assert OwnedBelow(store.goals, 1, 1) == [goal];
    listed := ListGoals(store, 1, today);
  }

  /**
   * Another user's goal answers 404 to update, delete and contribution, and the
   * goal table afterwards is the one the owner's create left behind.
   */
  method OtherUsersGoalIsNotFound() returns (updated: Response, deleted: Response, contributed: Response,
                                             table: map<GoalId, Goal>)
    ensures updated == NotFound && deleted == NotFound && contributed == NotFound
    ensures table == map[0 := SyncedGoal(NewRow(0, 1, "car", 500, None, None), 0)]
    ensures table[0].user_id == 1 && table[0].saved_amount == Some(0) && table[0].status == Some(Active)
  {
    var store := new Store();
    var _ := CreateGoalHandler(store, true, 1, "car", 500, None, None, 0);
    updated := UpdateGoalHandler(store, true, 0, 2, GoalUpdates(None, None, None, None, Some(Achieved)), 0);
    deleted := DeleteGoalHandler(store, 0, 2);
    contributed := AddContributionHandler(store, true, 0, 2, 500, None, 0);
    table := store.goals;
  }
}
