/**
 * The pure part of the goal controller: the status rule, the normalisation of
 * the two amount fields, and what a status synchronisation computes.
 */
module GoalStatus {
  import opened Wrappers
  import opened Goals

  // ---------------------------------------------------------------------------
  // Status derivation
  // ---------------------------------------------------------------------------

  /** The amount the status rule reads: the snake_case value, else the camelCase value, else 0. */
  function AmountOf(snake: Option<Amount>, camel: Option<Amount>): Amount {
    snake.GetOr(camel.GetOr(0))
  }

  function TargetOf(g: Goal): Amount {
    AmountOf(g.target_amount, g.targetAmount)
  }

  function SavedOf(g: Goal): Amount {
    AmountOf(g.saved_amount, g.savedAmount)
  }

  /** The goal has a positive target and has saved at least that much. */
  predicate Funded(g: Goal) {
    TargetOf(g) > 0 && SavedOf(g) >= TargetOf(g)
  }

  /** The goal has an end date that lies strictly before `now`. */
  predicate PastDeadline(g: Goal, now: Instant) {
    g.end_date.Some? && g.end_date.value < now
  }

  /**
   * The status of a goal (or of no goal at all) at instant `now`: achieved
   * first, then expired, otherwise active.
   */
  function DetermineGoalStatus(goal: Option<Goal>, now: Instant): (r: Status)
    ensures goal.None? ==> r == Active
    ensures r == Achieved ==> goal.Some? && TargetOf(goal.value) > 0
    ensures r == Expired ==> goal.Some? && PastDeadline(goal.value, now)
  {
    match goal
    case None => Active
    case Some(g) =>
      var targetAmount := TargetOf(g);
      var savedAmount := SavedOf(g);
      if savedAmount >= targetAmount && targetAmount > 0 then Achieved
      else if g.end_date.Some? && g.end_date.value < now then Expired
      else Active
  }

  /** The three outcomes, each stated as the condition under which it is chosen. */
  lemma StatusRule(g: Goal, now: Instant)
    ensures DetermineGoalStatus(Some(g), now) == Achieved <==> Funded(g)
    ensures DetermineGoalStatus(Some(g), now) == Expired <==> !Funded(g) && PastDeadline(g, now)
    ensures DetermineGoalStatus(Some(g), now) == Active <==> !Funded(g) && !PastDeadline(g, now)
  {
  }

  /** A funded goal is achieved, whatever its end date and whatever the time. */
  lemma AchievedWhateverTheDeadline(g: Goal, now: Instant)
    requires TargetOf(g) > 0 && SavedOf(g) >= TargetOf(g)
    ensures forall d: Option<Instant>, t: Instant :: DetermineGoalStatus(Some(g.(end_date := d)), t) == Achieved
  {
  }

  /** A goal whose target is not positive is never achieved, whatever it has saved. */
  lemma NonPositiveTargetNeverAchieved(g: Goal, now: Instant)
    requires TargetOf(g) <= 0
    ensures forall s: Option<Amount> :: DetermineGoalStatus(Some(g.(saved_amount := s)), now) != Achieved
  {
  }

  /** A goal without an end date is never expired. */
  lemma NoDeadlineNeverExpired(g: Goal, now: Instant)
    requires g.end_date.None?
    ensures DetermineGoalStatus(Some(g), now) != Expired
  {
  }

  /**
   * The deadline comparison is strict: a goal whose end date is the current
   * instant is not yet expired, and one instant later it is (unless funded).
   */
  lemma DeadlineIsStrict(g: Goal, now: Instant)
    requires g.end_date == Some(now) && !Funded(g)
    ensures DetermineGoalStatus(Some(g), now) == Active
    ensures DetermineGoalStatus(Some(g), now + 1) == Expired
  {
  }

  /** Once expired, a goal stays expired as time advances, as long as its amounts do not change. */
  lemma ExpiryIsPermanent(g: Goal, now: Instant, later: Instant)
    requires DetermineGoalStatus(Some(g), now) == Expired && now <= later
    ensures DetermineGoalStatus(Some(g), later) == Expired
  {
  }

  /** Each snake_case amount, when present, hides the camelCase one of the same amount. */
  lemma SnakeCaseTakesPrecedence(g: Goal, now: Instant)
    ensures g.target_amount.Some? ==> forall t: Option<Amount> ::
      DetermineGoalStatus(Some(g.(targetAmount := t)), now) == DetermineGoalStatus(Some(g), now)
    ensures g.saved_amount.Some? ==> forall s: Option<Amount> ::
      DetermineGoalStatus(Some(g.(savedAmount := s)), now) == DetermineGoalStatus(Some(g), now)
  {
  }

  /**
   * An amount given under neither spelling is read as 0, each amount on its
   * own; a goal with no target under either spelling is never achieved.
   */
  lemma MissingAmountsCountAsZero(g: Goal, now: Instant)
    ensures g.target_amount.None? && g.targetAmount.None? ==>
      DetermineGoalStatus(Some(g), now) == DetermineGoalStatus(Some(g.(target_amount := Some(0))), now)
    ensures g.saved_amount.None? && g.savedAmount.None? ==>
      DetermineGoalStatus(Some(g), now) == DetermineGoalStatus(Some(g.(saved_amount := Some(0))), now)
    ensures g.target_amount.None? && g.targetAmount.None? ==> DetermineGoalStatus(Some(g), now) != Achieved
  {
  }

  /** The stored status plays no part in deriving the status. */
  lemma StatusIgnoresStoredStatus(g: Goal, s: Option<Status>, now: Instant)
    ensures DetermineGoalStatus(Some(g.(status := s)), now) == DetermineGoalStatus(Some(g), now)
  {
  }

  // ---------------------------------------------------------------------------
  // Normalisation
  // ---------------------------------------------------------------------------

  /** The goal with its two snake_case amounts defaulted to 0 and every other field copied. */
  function NormalizeAmounts(g: Goal): (r: Goal)
    ensures r == g.(target_amount := r.target_amount, saved_amount := r.saved_amount)
    ensures r.target_amount.Some? && r.saved_amount.Some?
    ensures g.target_amount.Some? ==> r.target_amount == g.target_amount
    ensures g.saved_amount.Some? ==> r.saved_amount == g.saved_amount
    ensures g.target_amount.None? ==> r.target_amount == Some(0)
    ensures g.saved_amount.None? ==> r.saved_amount == Some(0)
  {
    g.(target_amount := Some(g.target_amount.GetOr(0)),
       saved_amount := Some(g.saved_amount.GetOr(0)))
  }

  /** Normalisation passes a null goal through. */
  function NormalizeGoal(goal: Option<Goal>): (r: Option<Goal>)
    ensures r.Some? <==> goal.Some?
    ensures goal.Some? ==> r.value == NormalizeAmounts(goal.value)
  {
    match goal
    case None => None
    case Some(g) => Some(NormalizeAmounts(g))
  }

  lemma NormalizeIsIdempotent(goal: Option<Goal>)
    ensures NormalizeGoal(NormalizeGoal(goal)) == NormalizeGoal(goal)
  {
  }

  /**
   * Normalisation keeps the derived status of a goal whose amounts are not
   * given in camelCase only.
   */
  lemma NormalizeKeepsStatus(g: Goal, now: Instant)
    requires g.target_amount.Some? || g.targetAmount.None?
    requires g.saved_amount.Some? || g.savedAmount.None?
    ensures DetermineGoalStatus(NormalizeGoal(Some(g)), now) == DetermineGoalStatus(Some(g), now)
  {
  }

  /** A goal that carries its amounts only under the camelCase names. */
  function CamelCaseGoal(): Goal {
    Goal(0, 0, "goal", None, None, None, Some(100), Some(100), None, Some(Achieved))
  }

  /**
   * Normalisation only looks at the snake_case names, so a goal that is
   * achieved under the camelCase names is shown with both amounts 0 and would
   * be active if its status were derived again.
   */
  lemma NormalizeCanChangeStatus(now: Instant)
    ensures DetermineGoalStatus(Some(CamelCaseGoal()), now) == Achieved
    ensures DetermineGoalStatus(NormalizeGoal(Some(CamelCaseGoal())), now) == Active
  {
  }

  // ---------------------------------------------------------------------------
  // Synchronisation (what syncGoalStatus computes; the store write is in GoalController)
  // ---------------------------------------------------------------------------

  /** The stored status agrees with the derived one. */
  predicate StatusConsistent(g: Goal, now: Instant) {
    g.status == Some(DetermineGoalStatus(Some(g), now))
  }

  /** Synchronisation has to write the derived status back. */
  predicate NeedsWrite(g: Goal, now: Instant) {
    !StatusConsistent(g, now)
  }

  /** The goal with its derived status merged in. */
  function SyncedGoal(g: Goal, now: Instant): (r: Goal)
    ensures StatusConsistent(r, now)
    ensures r == g.(status := r.status)
  {
    var computed := DetermineGoalStatus(Some(g), now);
    g.(status := Some(computed))
  }

  /** A goal that needs no write is returned as it is; a second synchronisation needs no write. */
  lemma SyncIsIdempotent(g: Goal, now: Instant)
    ensures !NeedsWrite(g, now) <==> SyncedGoal(g, now) == g
    ensures !NeedsWrite(SyncedGoal(g, now), now)
    ensures SyncedGoal(SyncedGoal(g, now), now) == SyncedGoal(g, now)
  {
  }

  /** The goal a handler returns is consistent with its derived status. */
  lemma PresentedGoalIsConsistent(g: Goal, now: Instant)
    requires g.targetAmount.None? && g.savedAmount.None?
    ensures StatusConsistent(NormalizeAmounts(SyncedGoal(g, now)), now)
  {
    NormalizeKeepsStatus(SyncedGoal(g, now), now);
  }
}
