/** One task card (src/components/TaskCard.tsx): the deadline derived from the trek's
    start date, the whole days left until it, the overdue and urgent flags, the card's
    state, the overdue warning, and the done toggle.
    Instants are milliseconds since the epoch; "now" is a parameter instead of a clock read. */
module TaskCard {
  import opened Tasks
  import opened App

  /** A JavaScript `Date`: a mutable object holding one instant. */
  class Date {
    var time: int

    /** `new Date(d)`: a distinct object holding the same instant. */
    constructor Copy(d: Date)
      ensures time == d.time
    {
      time := d.time;
    }

    /** `setDate(getDate() + days)`, on a calendar whose days all last `MsPerDay`. */
    method AddDays(days: int)
      modifies this
      ensures time == old(time) + days * MsPerDay
    {
      time := time + days * MsPerDay;
    }
  }

  /** The deadline instant of a task: `daysBeforeTrek` whole days before the trek starts,
      and none for a task without a day offset. */
  function Deadline(trekStart: int, daysBeforeTrek: Option<int>): (d: Option<int>)
    ensures d.None? <==> daysBeforeTrek.None?
    ensures d.Some? ==> trekStart - d.value == daysBeforeTrek.value * MsPerDay
  {
    match daysBeforeTrek
    case None => None
    case Some(n) => Some(trekStart - n * MsPerDay)
  }

  /** The card's deadline: a copy of the start date moved back in place, so that the
      start date itself is left as it was. */
  method ComputeDeadline(task: Task, trekStartDate: Date) returns (deadline: Date?)
    ensures deadline == null <==> task.daysBeforeTrek.None?
    ensures deadline != null ==> fresh(deadline) && Deadline(trekStartDate.time, task.daysBeforeTrek) == Some(deadline.time)
    ensures trekStartDate.time == old(trekStartDate.time)
  {
    deadline := null;
    if task.daysBeforeTrek.Some? {
      deadline := new Date.Copy(trekStartDate);
      deadline.AddDays(-task.daysBeforeTrek.value);
    }
  }

  /** `Math.ceil(x / d)` for a positive divisor: the least `q` with `x <= q * d`. */
  function CeilDiv(x: int, d: int): (q: int)
    requires d > 0
    ensures (q - 1) * d < x <= q * d
  {
    -((-x) / d)
  }

  /** At most one integer satisfies the contract of `CeilDiv`. */
  lemma CeilDivUnique(x: int, d: int, q: int)
    requires d > 0
    requires (q - 1) * d < x <= q * d
    ensures q == CeilDiv(x, d)
  {
  }

  /** Whole days left until the deadline, rounded up; none without a deadline. */
  function DaysUntilDeadline(deadline: Option<int>, now: int): (r: Option<int>)
    ensures r.None? <==> deadline.None?
    ensures r.Some? ==> (r.value - 1) * MsPerDay < deadline.value - now <= r.value * MsPerDay
  {
    match deadline
    case None => None
    case Some(d) => Some(CeilDiv(d - now, MsPerDay))
  }

  /** A deadline less than a day ahead counts as one day left; one less than a day
      behind, or exactly now, as zero days left. */
  lemma PartialDaysRoundUp(deadline: int, now: int)
    ensures 0 < deadline - now <= MsPerDay ==> DaysUntilDeadline(Some(deadline), now) == Some(1)
    ensures -MsPerDay < deadline - now <= 0 ==> DaysUntilDeadline(Some(deadline), now) == Some(0)
  {
  }

  /** Days left until a task's deadline are the days left until the trek start, rounded up,
      minus the task's day offset. */
  lemma DaysUntilDeadlineFromStart(trekStart: int, n: int, now: int)
    ensures DaysUntilDeadline(Deadline(trekStart, Some(n)), now) == Some(CeilDiv(trekStart - now, MsPerDay) - n)
  {
  }

  /** The red "overdue" flag. */
  predicate IsOverdue(daysUntilDeadline: Option<int>, status: TaskStatus): (b: bool)
    ensures b ==> daysUntilDeadline.Some? && daysUntilDeadline.value <= -1
    ensures status == Completed || daysUntilDeadline.None? ==> !b
  {
    daysUntilDeadline.Some? && daysUntilDeadline.value < 0 && status != Completed
  }

  /** The orange "urgent" flag. */
  predicate IsUrgent(daysUntilDeadline: Option<int>, status: TaskStatus): (b: bool)
    ensures b ==> daysUntilDeadline.Some? && 0 <= daysUntilDeadline.value <= 3
    ensures b ==> !IsOverdue(daysUntilDeadline, status)
    ensures status == Completed || daysUntilDeadline.None? ==> !b
  {
    daysUntilDeadline.Some? && daysUntilDeadline.value <= 3 && daysUntilDeadline.value >= 0 && status != Completed
  }

  /** In terms of instants: a task is overdue once a full day has passed since its deadline,
      and urgent from three days before its deadline until then; a completed task is neither. */
  lemma FlagsFromInstants(deadline: int, now: int, status: TaskStatus)
    ensures IsOverdue(DaysUntilDeadline(Some(deadline), now), status)
            <==> status != Completed && now - deadline >= MsPerDay
    ensures IsUrgent(DaysUntilDeadline(Some(deadline), now), status)
            <==> status != Completed && -MsPerDay < deadline - now <= 3 * MsPerDay
  {
  }

  /** The two flags never hold together, and neither holds for a completed task or a task
      without a deadline. */
  lemma FlagsExclusive(daysUntilDeadline: Option<int>, status: TaskStatus)
    ensures !(IsOverdue(daysUntilDeadline, status) && IsUrgent(daysUntilDeadline, status))
    ensures status == Completed || daysUntilDeadline.None? ==>
              !IsOverdue(daysUntilDeadline, status) && !IsUrgent(daysUntilDeadline, status)
  {
  }

  /** The card's colouring, by the precedence completed, overdue, urgent. */
  datatype CardState = Done | Overdue | Urgent | Plain

  function CardStateOf(status: TaskStatus, daysUntilDeadline: Option<int>): (s: CardState)
    ensures s == Done <==> status == Completed
    ensures s == Overdue <==> status != Completed && daysUntilDeadline.Some? && daysUntilDeadline.value < 0
    ensures s == Urgent <==> status != Completed && daysUntilDeadline.Some? && 0 <= daysUntilDeadline.value <= 3
    ensures s == Plain <==> status != Completed && (daysUntilDeadline.None? || daysUntilDeadline.value > 3)
  {
    if status == Completed then Done
    else if IsOverdue(daysUntilDeadline, status) then Overdue
    else if IsUrgent(daysUntilDeadline, status) then Urgent
    else Plain
  }

  /** The number of days in the "Overdue by" warning, shown only for an overdue task. */
  function OverdueBy(status: TaskStatus, daysUntilDeadline: Option<int>): (r: Option<int>)
    ensures r.Some? <==> IsOverdue(daysUntilDeadline, status)
    ensures r.Some? ==> r.value >= 1 && r.value == -daysUntilDeadline.value
  {
    if IsOverdue(daysUntilDeadline, status) && status != Completed && daysUntilDeadline.Some?
    then Some(Abs(daysUntilDeadline.value))
    else None
  }

  /** `Math.abs`. */
  function Abs(x: int): int
  {
    if x < 0 then -x else x
  }

  /** The status the done button sets. */
  function NextStatus(status: TaskStatus): (r: TaskStatus)
    ensures r == Completed <==> status != Completed
    ensures r == NotStarted <==> status == Completed
  {
    if status == Completed then NotStarted else Completed
  }

  /** Pressing the button twice restores a not-started or completed task; an in-progress
      task ends up not started. */
  lemma NextStatusTwice(status: TaskStatus)
    ensures status != InProgress ==> NextStatus(NextStatus(status)) == status
    ensures status == InProgress ==> NextStatus(NextStatus(status)) == NotStarted
  {
  }

  /** The done button: the card dispatches the toggled status to the store. */
  method ToggleDone(app: AppState, task: Task)
    modifies app
    ensures app.tasks == WithStatus(old(app.tasks), task.id, NextStatus(task.status))
    ensures app.selectedTrekType == old(app.selectedTrekType) && app.selectedTeam == old(app.selectedTeam)
  {
    app.UpdateTaskStatus(task.id, NextStatus(task.status));
  }

  /** A file picked for a file input: only its name is forwarded to the store. */
  method HandleFileChange(app: AppState, task: Task, pickedFileName: Option<string>)
    modifies app
    ensures pickedFileName.None? ==> app.tasks == old(app.tasks)
    ensures pickedFileName.Some? ==> app.tasks == WithInput(old(app.tasks), task.id, pickedFileName.value)
    ensures app.selectedTrekType == old(app.selectedTrekType) && app.selectedTeam == old(app.selectedTeam)
  {
    if pickedFileName.Some? {
      app.UpdateTaskInput(task.id, pickedFileName.value);
    }
  }

  /** Seed task "2" (obtain the trekking permit, 4 days before a trek starting on 2025-06-15):
      its deadline is 2025-06-11; two days ahead it is urgent, two days late it is overdue
      unless completed. */
  lemma PermitTaskScenario()
    ensures Deadline(HamptaPass.startDate, Some(4)) == Some(1_749_600_000_000)  // 2025-06-11
    ensures DaysUntilDeadline(Some(1_749_600_000_000), 1_749_427_200_000) == Some(2)  // now 2025-06-09
    ensures CardStateOf(NotStarted, Some(2)) == Urgent
    ensures DaysUntilDeadline(Some(1_749_600_000_000), 1_749_772_800_000) == Some(-2)  // now 2025-06-13
    ensures CardStateOf(NotStarted, Some(-2)) == Overdue && OverdueBy(NotStarted, Some(-2)) == Some(2)
    ensures CardStateOf(Completed, Some(-2)) == Done && OverdueBy(Completed, Some(-2)) == None
  {
  }
}
