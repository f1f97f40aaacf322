/**
 * Data model of the goal tracker: a savings goal as the goal table stores it,
 * a contribution towards a goal, and the partial update a request may carry.
 */
module Goals {
  import opened Wrappers

  type GoalId = nat
  type UserId = nat

  /** Money, in cents. */
  type Amount = int

  /** A point in time, in milliseconds since the epoch. */
  type Instant = int

  datatype Status = Active | Achieved | Expired

  /**
   * A goal record. The field names are the record's own: the goal table uses
   * snake_case columns (`target_amount`, `saved_amount`), while request bodies
   * use camelCase (`targetAmount`, `savedAmount`), and the status rule accepts
   * either spelling. A field that is `null` or missing is `None`.
   */
  datatype Goal = Goal(
    id: GoalId,
    user_id: UserId,
    name: string,
    description: Option<string>,
    target_amount: Option<Amount>,
    saved_amount: Option<Amount>,
    targetAmount: Option<Amount>,
    savedAmount: Option<Amount>,
    end_date: Option<Instant>,
    status: Option<Status>)

  datatype Contribution = Contribution(
    id: nat,
    goal_id: GoalId,
    amount: Amount,
    contribution_date: Option<Instant>)

  /** The fields an update request may set; `None` is a field the request left undefined. */
  datatype GoalUpdates = GoalUpdates(
    name: Option<string>,
    targetAmount: Option<Amount>,
    description: Option<string>,
    endDate: Option<Instant>,
    status: Option<Status>)
}
