/** The top-level component's state (src/App.tsx:36-805): the selected trek type and team,
    the fixed trek information and the task list, with the filter that feeds the list view
    and the two updates that the task cards dispatch. */
module App {
  import opened Tasks
  import opened Seqs

  /** The trek information the component is created with; it has no setter. */
  const HamptaPass := TrekInfo(
    "Hampta Pass Trek",
    1_749_945_600_000,  // 2025-06-15T00:00:00Z
    1_740_787_200_000   // 2025-03-01T00:00:00Z
  )

  /** The filter predicate: same trek type and same team as the selection. */
  function Selects(trekType: TrekType, team: Team): Task -> bool
  {
    (t: Task) => t.trekType == trekType && t.team == team
  }

  /** The tasks shown for a selection. */
  function FilteredTasks(tasks: seq<Task>, trekType: TrekType, team: Team): (r: seq<Task>)
    ensures |r| <= |tasks|
    ensures forall i :: 0 <= i < |r| ==> r[i].trekType == trekType && r[i].team == team && r[i] in tasks
    ensures forall i :: 0 <= i < |tasks| && tasks[i].trekType == trekType && tasks[i].team == team ==> tasks[i] in r
  {
    FilterMembers(tasks, Selects(trekType, team));
    Filter(tasks, Selects(trekType, team))
  }

  /** The filter keeps the input's relative order, and every matching task appears
      as often as it does in the input; non-matching tasks do not appear at all. */
  lemma FilteredKeepsOrderAndMatches(tasks: seq<Task>, trekType: TrekType, team: Team, t: Task)
    ensures IsSubsequence(FilteredTasks(tasks, trekType, team), tasks)
    ensures multiset(FilteredTasks(tasks, trekType, team))[t] ==
              if t.trekType == trekType && t.team == team then multiset(tasks)[t] else 0
  {
    FilterIsSubsequence(tasks, Selects(trekType, team));
    FilterMultiplicity(tasks, Selects(trekType, team), t);
  }

  /** Filtering an already filtered list with the same selection returns it unchanged. */
  lemma FilteredIdempotent(tasks: seq<Task>, trekType: TrekType, team: Team)
    ensures FilteredTasks(FilteredTasks(tasks, trekType, team), trekType, team) == FilteredTasks(tasks, trekType, team)
  {
    FilterIdempotent(tasks, Selects(trekType, team));
  }

  /** The callback mapped over the list by `updateTaskStatus`. */
  function StatusSetter(taskId: string, newStatus: TaskStatus): Task -> Task
  {
    (t: Task) => if t.id == taskId then t.(status := newStatus) else t
  }

  /** The callback mapped over the list by `updateTaskInput`. */
  function InputSetter(taskId: string, inputValue: string): Task -> Task
  {
    (t: Task) => if t.id == taskId then t.(inputValue := Some(inputValue)) else t
  }

  /** `updateTaskStatus`'s new list: every task whose id is `taskId` gets `newStatus`. */
  function WithStatus(tasks: seq<Task>, taskId: string, newStatus: TaskStatus): (r: seq<Task>)
    ensures |r| == |tasks|
    ensures forall i :: 0 <= i < |r| && tasks[i].id == taskId ==> r[i].status == newStatus
    ensures forall i :: 0 <= i < |r| && tasks[i].id != taskId ==> r[i] == tasks[i]
    ensures forall i :: 0 <= i < |r| ==> r[i].(status := tasks[i].status) == tasks[i]
  {
    Map(tasks, StatusSetter(taskId, newStatus))
  }

  /** `updateTaskInput`'s new list: every task whose id is `taskId` gets `inputValue`,
      which may be the empty string. */
  function WithInput(tasks: seq<Task>, taskId: string, inputValue: string): (r: seq<Task>)
    ensures |r| == |tasks|
    ensures forall i :: 0 <= i < |r| && tasks[i].id == taskId ==> r[i].inputValue == Some(inputValue)
    ensures forall i :: 0 <= i < |r| && tasks[i].id != taskId ==> r[i] == tasks[i]
    ensures forall i :: 0 <= i < |r| ==> r[i].(inputValue := tasks[i].inputValue) == tasks[i]
  {
    Map(tasks, InputSetter(taskId, inputValue))
  }

  /** An id that names no task leaves the list as it was. */
  lemma UnknownIdIsNoOp(tasks: seq<Task>, taskId: string, newStatus: TaskStatus, inputValue: string)
    requires forall i :: 0 <= i < |tasks| ==> tasks[i].id != taskId
    ensures WithStatus(tasks, taskId, newStatus) == tasks
    ensures WithInput(tasks, taskId, inputValue) == tasks
  {
  }

  /** Setting the same status twice is the same as setting it once. */
  lemma WithStatusIdempotent(tasks: seq<Task>, taskId: string, newStatus: TaskStatus)
    ensures WithStatus(WithStatus(tasks, taskId, newStatus), taskId, newStatus) == WithStatus(tasks, taskId, newStatus)
  {
  }

  /** The visible list after a status update is the update of the visible list:
      an update never moves a task into or out of a selection. */
  lemma StatusUpdateCommutesWithFilter(tasks: seq<Task>, trekType: TrekType, team: Team,
                                       taskId: string, newStatus: TaskStatus)
    ensures FilteredTasks(WithStatus(tasks, taskId, newStatus), trekType, team)
         == WithStatus(FilteredTasks(tasks, trekType, team), taskId, newStatus)
  {
    FilterMapCommute(tasks, Selects(trekType, team), StatusSetter(taskId, newStatus));
  }

  /** The visible list after an input update is the update of the visible list. */
  lemma InputUpdateCommutesWithFilter(tasks: seq<Task>, trekType: TrekType, team: Team,
                                      taskId: string, inputValue: string)
    ensures FilteredTasks(WithInput(tasks, taskId, inputValue), trekType, team)
         == WithInput(FilteredTasks(tasks, trekType, team), taskId, inputValue)
  {
    FilterMapCommute(tasks, Selects(trekType, team), InputSetter(taskId, inputValue));
  }

  /** The component's state. `tasks` is replaced wholesale by each update, as `setTasks` does. */
  class AppState {
    var selectedTrekType: TrekType
    var selectedTeam: Team
    const trekInfo: TrekInfo
    var tasks: seq<Task>

    /** The initial state: treks, ground operations, the Hampta Pass trek and the seed tasks. */
    constructor (seed: seq<Task>)
      ensures selectedTrekType == Treks && selectedTeam == GroundOps
      ensures trekInfo == HamptaPass
      ensures tasks == seed
    {
      selectedTrekType := Treks;
      selectedTeam := GroundOps;
      trekInfo := HamptaPass;
      tasks := seed;
    }

    /** The list handed to the task list view. */
    function Filtered(): (r: seq<Task>)
      reads this
      ensures forall i :: 0 <= i < |r| ==> r[i].trekType == selectedTrekType && r[i].team == selectedTeam
      ensures forall i :: 0 <= i < |r| ==> r[i] in tasks
      ensures IsSubsequence(r, tasks)
      ensures forall i :: 0 <= i < |tasks| && tasks[i].trekType == selectedTrekType && tasks[i].team == selectedTeam
                ==> tasks[i] in r
    {
      FilterIsSubsequence(tasks, Selects(selectedTrekType, selectedTeam));
      FilteredTasks(tasks, selectedTrekType, selectedTeam)
    }

    /** The trek-type selector's change handler. */
    method SetSelectedTrekType(trekType: TrekType)
      modifies this
      ensures selectedTrekType == trekType
      ensures selectedTeam == old(selectedTeam) && tasks == old(tasks)
    {
      selectedTrekType := trekType;
    }

    /** The team selector's change handler. */
    method SetSelectedTeam(team: Team)
      modifies this
      ensures selectedTeam == team
      ensures selectedTrekType == old(selectedTrekType) && tasks == old(tasks)
    {
      selectedTeam := team;
    }

    method UpdateTaskStatus(taskId: string, newStatus: TaskStatus)
      modifies this
      ensures tasks == WithStatus(old(tasks), taskId, newStatus)
      ensures |tasks| == |old(tasks)|
      ensures forall i :: 0 <= i < |tasks| ==> tasks[i].id == old(tasks)[i].id
      ensures selectedTrekType == old(selectedTrekType) && selectedTeam == old(selectedTeam)
    {
      tasks := WithStatus(tasks, taskId, newStatus);
    }

    method UpdateTaskInput(taskId: string, inputValue: string)
      modifies this
      ensures tasks == WithInput(old(tasks), taskId, inputValue)
      ensures |tasks| == |old(tasks)|
      ensures forall i :: 0 <= i < |tasks| ==> tasks[i].id == old(tasks)[i].id
      ensures selectedTrekType == old(selectedTrekType) && selectedTeam == old(selectedTeam)
    {
      tasks := WithInput(tasks, taskId, inputValue);
    }
  }
}
