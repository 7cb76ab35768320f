/** The record types of the checklist: the task template, the trek it belongs to,
    and the enumerations that classify both (src/App.tsx:7-34). */
module Tasks {

  datatype Option<T> = None | Some(value: T)

  datatype TrekType = Treks | Expeditions | Climbs
  datatype Team = GroundOps | Support | TripLeader | HeadOffice
  datatype TaskStatus = NotStarted | InProgress | Completed
  datatype Priority = High | Medium | Low
  datatype InputType = Text | File | Link | Textarea

  /** One checklist item. `daysBeforeTrek` is `None` for a task with no deadline;
      `assignee` and `inputValue` are the optional fields of the record. */
  datatype Task = Task(
    id: string,
    title: string,
    description: string,
    status: TaskStatus,
    priority: Priority,
    daysBeforeTrek: Option<int>,
    assignee: Option<string>,
    trekType: TrekType,
    team: Team,
    inputType: InputType,
    inputValue: Option<string>,
    section: string,
    sectionNumber: int,
    taskNumber: int
  )

  /** Dates are instants in milliseconds since the Unix epoch, as `Date.getTime()` gives them. */
  datatype TrekInfo = TrekInfo(name: string, startDate: int, firstBookingDate: int)

  /** Milliseconds in one day: 1000 * 60 * 60 * 24. */
  const MsPerDay: int := 86_400_000
}
