/** The task list view (src/components/TaskList.tsx): the filtered tasks grouped by section
    number, the sections in ascending numeric order, and each section's tasks sorted by
    task number. */
module TaskList {
  import opened Tasks
  import opened Seqs

  /** One entry of the grouping dictionary: the section's name and its tasks, in the order met. */
  datatype Group = Group(section: string, tasks: seq<Task>)

  /** The section numbers that occur in `tasks`. */
  function SectionNumbers(tasks: seq<Task>): set<int>
  {
    set i | 0 <= i < |tasks| :: tasks[i].sectionNumber
  }

  function HasSection(k: int): Task -> bool
  {
    (t: Task) => t.sectionNumber == k
  }

  /** The tasks of section `k`, in their original order. */
  function InSection(tasks: seq<Task>, k: int): seq<Task>
  {
    Filter(tasks, HasSection(k))
  }

  /** `name` is the section name of the first task of `tasks` numbered `k`. */
  ghost predicate FirstNameOf(tasks: seq<Task>, k: int, name: string)
  {
    exists i :: 0 <= i < |tasks| && tasks[i].sectionNumber == k && tasks[i].section == name &&
      forall j :: 0 <= j < i ==> tasks[j].sectionNumber != k
  }

  /** One turn of the grouping loop: open the task's section with the task's section name
      if it is new, then append the task to it. */
  function AddToGroups(grouped: map<int, Group>, task: Task): map<int, Group>
  {
    var entry := if task.sectionNumber in grouped then grouped[task.sectionNumber] else Group(task.section, []);
    grouped[task.sectionNumber := entry.(tasks := entry.tasks + [task])]
  }

  /** The dictionary after the loop has visited every task of `tasks`, left to right. */
  function Grouped(tasks: seq<Task>): map<int, Group>
  {
    if tasks == [] then map[] else AddToGroups(Grouped(tasks[..|tasks| - 1]), tasks[|tasks| - 1])
  }

  /** The grouping loop. */
  method GroupTasks(tasks: seq<Task>) returns (groupedTasks: map<int, Group>)
    ensures groupedTasks == Grouped(tasks)
    ensures groupedTasks.Keys == SectionNumbers(tasks)
    ensures forall k :: k in groupedTasks ==> groupedTasks[k].tasks == InSection(tasks, k)
    ensures forall k :: k in groupedTasks ==> FirstNameOf(tasks, k, groupedTasks[k].section)
  {
    groupedTasks := map[];
    var i := 0;
    while i < |tasks|
      invariant 0 <= i <= |tasks|
      invariant groupedTasks == Grouped(tasks[..i])
    {
      var task := tasks[i];
      if task.sectionNumber !in groupedTasks {
        groupedTasks := groupedTasks[task.sectionNumber := Group(task.section, [])];
      }
      var entry := groupedTasks[task.sectionNumber];
      groupedTasks := groupedTasks[task.sectionNumber := entry.(tasks := entry.tasks + [task])];
      assert tasks[..i + 1][..i] == tasks[..i];
      i := i + 1;
    }
    assert tasks[..|tasks|] == tasks;
    GroupedKeys(tasks);
    GroupedTasks(tasks);
    GroupedNames(tasks);
  }

  /** Every section number of the input, and no other, is a key of the dictionary. */
  lemma {:induction false} GroupedKeys(tasks: seq<Task>)
    ensures Grouped(tasks).Keys == SectionNumbers(tasks)
  {
    if tasks != [] {
      var n := |tasks| - 1;
      GroupedKeys(tasks[..n]);
      assert SectionNumbers(tasks) == SectionNumbers(tasks[..n]) + {tasks[n].sectionNumber} by {
        forall k | k in SectionNumbers(tasks) ensures k in SectionNumbers(tasks[..n]) + {tasks[n].sectionNumber} {
          var i :| 0 <= i < |tasks| && tasks[i].sectionNumber == k;
          if i < n { assert tasks[..n][i] == tasks[i]; }
        }
        forall k | k in SectionNumbers(tasks[..n]) ensures k in SectionNumbers(tasks) {
          var i :| 0 <= i < n && tasks[..n][i].sectionNumber == k;
          assert tasks[i].sectionNumber == k;
        }
      }
    }
  }

  /** Each task lands in the group of its section number, and a group holds its section's
      tasks in input order. */
  lemma {:induction false} GroupedTasks(tasks: seq<Task>)
    ensures forall k :: k in Grouped(tasks) ==> Grouped(tasks)[k].tasks == InSection(tasks, k)
  {
    if tasks != [] {
      var n := |tasks| - 1;
      var t := tasks[n];
      GroupedTasks(tasks[..n]);
      assert tasks == tasks[..n] + [t];
      forall k | k in Grouped(tasks) ensures Grouped(tasks)[k].tasks == InSection(tasks, k) {
        FilterAppend(tasks[..n], [t], HasSection(k));
        if k != t.sectionNumber {
          assert Grouped(tasks)[k] == Grouped(tasks[..n])[k];
        } else if k !in Grouped(tasks[..n]) {
          GroupedKeys(tasks[..n]);
          NoTasksInSection(tasks[..n], k);
        }
      }
    }
  }

  lemma {:induction false} NoTasksInSection(tasks: seq<Task>, k: int)
    requires k !in SectionNumbers(tasks)
    ensures InSection(tasks, k) == []
  {
    if tasks != [] {
      assert tasks[0].sectionNumber in SectionNumbers(tasks);
      assert SectionNumbers(tasks[1..]) <= SectionNumbers(tasks) by {
        forall x | x in SectionNumbers(tasks[1..]) ensures x in SectionNumbers(tasks) {
          var i :| 0 <= i < |tasks[1..]| && tasks[1..][i].sectionNumber == x;
          assert tasks[i + 1].sectionNumber == x;
        }
      }
      NoTasksInSection(tasks[1..], k);
    }
  }

  /** A group's name is the section name of the first task met with its number. */
  lemma {:induction false} GroupedNames(tasks: seq<Task>)
    ensures forall k :: k in Grouped(tasks) ==> FirstNameOf(tasks, k, Grouped(tasks)[k].section)
  {
    if tasks != [] {
      var n := |tasks| - 1;
      var t := tasks[n];
      GroupedNames(tasks[..n]);
      GroupedKeys(tasks[..n]);
      forall k | k in Grouped(tasks) ensures FirstNameOf(tasks, k, Grouped(tasks)[k].section) {
        if k in Grouped(tasks[..n]) {
          var name := Grouped(tasks[..n])[k].section;
          assert Grouped(tasks)[k].section == name;
          var i :| 0 <= i < n && tasks[..n][i].sectionNumber == k && tasks[..n][i].section == name &&
            forall j :: 0 <= j < i ==> tasks[..n][j].sectionNumber != k;
          assert forall j :: 0 <= j < i ==> tasks[j] == tasks[..n][j];
        } else {
          assert k == t.sectionNumber && Grouped(tasks)[k].section == t.section;
          forall j | 0 <= j < n ensures tasks[j].sectionNumber != k {
            assert tasks[..n][j] == tasks[j];
          }
        }
      }
    }
  }

  /** A non-empty set has an element. */
  lemma HasElement(s: set<int>)
    requires s != {}
    ensures exists k :: k in s
  {
    if forall k :: k !in s {
      assert false;
    }
  }

  /** The smallest element of a non-empty set. */
  lemma {:induction false} Least(s: set<int>) returns (m: int)
    requires s != {}
    ensures m in s && forall k :: k in s ==> m <= k
    decreases |s|
  {
    HasElement(s);
    var x :| x in s;
    var rest := s - {x};
    if rest == {} {
      m := x;
      forall k | k in s ensures m <= k {
        assert k !in rest;
      }
    } else {
      var m' := Least(rest);
      m := if x < m' then x else m';
      forall k | k in s ensures m <= k {
        if k != x { assert k in rest; }
      }
    }
  }

  lemma MinExists(s: set<int>)
    requires s != {}
    ensures exists m :: m in s && forall k :: k in s ==> m <= k
  {
    var m := Least(s);
  }

  /** The keys of a dictionary in ascending numeric order, as `.sort((a, b) => a - b)` leaves them. */
  function SortedKeys(keys: set<int>): (r: seq<int>)
    ensures forall i, j :: 0 <= i < j < |r| ==> r[i] < r[j]
    ensures forall i :: 0 <= i < |r| ==> r[i] in keys
    ensures forall k :: k in keys ==> k in r
    decreases |keys|
  {
    if keys == {} then []
    else
      MinExists(keys);
      var m :| m in keys && forall k :: k in keys ==> m <= k;
      [m] + SortedKeys(keys - {m})
  }

  /** Non-decreasing task numbers. */
  ghost predicate SortedByTaskNumber(tasks: seq<Task>)
  {
    forall i, j :: 0 <= i < j < |tasks| ==> tasks[i].taskNumber <= tasks[j].taskNumber
  }

  /** Insert `t` in front of every task whose number is not smaller. */
  function InsertByTaskNumber(t: Task, tasks: seq<Task>): (r: seq<Task>)
    ensures multiset(r) == multiset(tasks) + multiset{t}
  {
    if tasks == [] then [t]
    else if t.taskNumber <= tasks[0].taskNumber then [t] + tasks
    else
      assert tasks == [tasks[0]] + tasks[1..];
      [tasks[0]] + InsertByTaskNumber(t, tasks[1..])
  }

  lemma {:induction false} InsertSorted(t: Task, tasks: seq<Task>)
    requires SortedByTaskNumber(tasks)
    ensures SortedByTaskNumber(InsertByTaskNumber(t, tasks))
  {
    if tasks != [] && t.taskNumber > tasks[0].taskNumber {
      InsertSorted(t, tasks[1..]);
      var rest := InsertByTaskNumber(t, tasks[1..]);
      forall i | 0 <= i < |rest| ensures tasks[0].taskNumber <= rest[i].taskNumber {
        assert rest[i] in multiset(tasks[1..]) + multiset{t};
        if rest[i] != t {
          var j :| 0 <= j < |tasks[1..]| && tasks[1..][j] == rest[i];
          assert tasks[j + 1] == rest[i];
        }
      }
      var r := InsertByTaskNumber(t, tasks);
      assert r == [tasks[0]] + rest;
      forall i, j | 0 <= i < j < |r| ensures r[i].taskNumber <= r[j].taskNumber {
        if i > 0 { assert r[i] == rest[i - 1] && r[j] == rest[j - 1]; }
        else { assert r[j] == rest[j - 1]; }
      }
    } else if tasks != [] {
      var r := InsertByTaskNumber(t, tasks);
      assert r == [t] + tasks;
      forall i, j | 0 <= i < j < |r| ensures r[i].taskNumber <= r[j].taskNumber {
        if i > 0 { assert r[i] == tasks[i - 1]; }
        assert r[j] == tasks[j - 1];
      }
    }
  }

  /** `[...tasks].sort((a, b) => a.taskNumber - b.taskNumber)`: a stable sort of a copy. */
  function SortByTaskNumber(tasks: seq<Task>): (r: seq<Task>)
    ensures SortedByTaskNumber(r)
    ensures multiset(r) == multiset(tasks)
  {
    if tasks == [] then []
    else
      assert tasks == [tasks[0]] + tasks[1..];
      var rest := SortByTaskNumber(tasks[1..]);
      InsertSorted(tasks[0], rest);
      InsertByTaskNumber(tasks[0], rest)
  }

  function HasTaskNumber(n: int): Task -> bool
  {
    (t: Task) => t.taskNumber == n
  }

  /** The tasks numbered `n`, in their order in `tasks`. */
  function NumberedAs(tasks: seq<Task>, n: int): seq<Task>
  {
    Filter(tasks, HasTaskNumber(n))
  }

  lemma {:induction false} InsertKeepsTies(t: Task, tasks: seq<Task>, n: int)
    ensures NumberedAs(InsertByTaskNumber(t, tasks), n) == (if t.taskNumber == n then [t] else []) + NumberedAs(tasks, n)
  {
    var p := HasTaskNumber(n);
    var ht := if t.taskNumber == n then [t] else [];
    var r := InsertByTaskNumber(t, tasks);
    if tasks == [] {
      assert r == [t] && Filter(r, p) == ht + Filter([], p);
    } else if t.taskNumber <= tasks[0].taskNumber {
      assert r[0] == t && r[1..] == tasks;
      assert Filter(r, p) == ht + Filter(tasks, p);
    } else {
      InsertKeepsTies(t, tasks[1..], n);
      var h0 := if tasks[0].taskNumber == n then [tasks[0]] else [];
      assert r[0] == tasks[0] && r[1..] == InsertByTaskNumber(t, tasks[1..]);
      assert Filter(r, p) == h0 + (ht + Filter(tasks[1..], p));
      assert Filter(tasks, p) == h0 + Filter(tasks[1..], p);
      if h0 == [] {
        assert h0 + (ht + Filter(tasks[1..], p)) == ht + Filter(tasks[1..], p);
      } else {
        assert ht == [];
      }
    }
  }

  /** The sort is stable: tasks with equal numbers keep their relative order. */
  lemma {:induction false} SortIsStable(tasks: seq<Task>, n: int)
    ensures NumberedAs(SortByTaskNumber(tasks), n) == NumberedAs(tasks, n)
  {
    if tasks != [] {
      SortIsStable(tasks[1..], n);
      InsertKeepsTies(tasks[0], SortByTaskNumber(tasks[1..]), n);
    }
  }

  /** Two sequences sorted by task number that hold the same tasks for every task number,
      in the same order, are equal: every stable sort by task number gives the result of
      `SortByTaskNumber`. */
  lemma {:induction false} StableSortIsUnique(a: seq<Task>, b: seq<Task>)
    requires SortedByTaskNumber(a) && SortedByTaskNumber(b)
    requires forall n :: NumberedAs(a, n) == NumberedAs(b, n)
    ensures a == b
    decreases |a| + |b|
  {
    if a == [] || b == [] {
      if a != [] {
        assert NumberedAs(a, a[0].taskNumber) != [] by { HeadNumbered(a); }
      } else if b != [] {
        assert NumberedAs(b, b[0].taskNumber) != [] by { HeadNumbered(b); }
      }
    } else {
      var na, nb := a[0].taskNumber, b[0].taskNumber;
      HeadNumbered(a);
      HeadNumbered(b);
      NumberedOccurs(a, nb);
      NumberedOccurs(b, na);
      assert na == nb;
      assert a[0] == NumberedAs(a, na)[0] == NumberedAs(b, na)[0] == b[0];
      forall n ensures NumberedAs(a[1..], n) == NumberedAs(b[1..], n) {
        HeadNumbered(a);
        HeadNumbered(b);
        var h := if n == na then [a[0]] else [];
        assert NumberedAs(a, n) == h + NumberedAs(a[1..], n);
        assert NumberedAs(b, n) == h + NumberedAs(b[1..], n);
        assert NumberedAs(a[1..], n) == NumberedAs(a, n)[|h|..];
        assert NumberedAs(b[1..], n) == NumberedAs(b, n)[|h|..];
      }
      StableSortIsUnique(a[1..], b[1..]);
      assert a == [a[0]] + a[1..] && b == [b[0]] + b[1..];
    }
  }

  /** The first task leads the tasks with its own number. */
  lemma HeadNumbered(a: seq<Task>)
    requires a != []
    ensures forall n :: NumberedAs(a, n) == (if n == a[0].taskNumber then [a[0]] else []) + NumberedAs(a[1..], n)
  {
  }

  /** In a sorted sequence, a task number that occurs is no smaller than the first. */
  lemma NumberedOccurs(a: seq<Task>, n: int)
    requires a != [] && SortedByTaskNumber(a)
    requires NumberedAs(a, n) != []
    ensures a[0].taskNumber <= n
  {
    FilterMembers(a, HasTaskNumber(n));
    var x := NumberedAs(a, n)[0];
    var i :| 0 <= i < |a| && a[i] == x;
    assert x.taskNumber == n;
  }

  /** One rendered section: its number, its heading and its sorted tasks. */
  datatype Section = Section(number: int, name: string, tasks: seq<Task>)

  /** What the list renders: the "no tasks" message, or the sections in order. */
  datatype View = NoTasks | Sections(sections: seq<Section>)

  function SectionsOf(grouped: map<int, Group>, keys: seq<int>): (r: seq<Section>)
    requires forall i :: 0 <= i < |keys| ==> keys[i] in grouped
    ensures |r| == |keys|
    ensures forall i :: 0 <= i < |r| ==>
              r[i] == Section(keys[i], grouped[keys[i]].section, SortByTaskNumber(grouped[keys[i]].tasks))
  {
    if keys == [] then []
    else [Section(keys[0], grouped[keys[0]].section, SortByTaskNumber(grouped[keys[0]].tasks))]
         + SectionsOf(grouped, keys[1..])
  }

  /** The list view of the (already filtered) tasks. */
  function Render(tasks: seq<Task>): (v: View)
    ensures v.NoTasks? <==> tasks == []
  {
    if |tasks| == 0 then NoTasks
    else
      var grouped := Grouped(tasks);
      Sections(SectionsOf(grouped, SortedKeys(grouped.Keys)))
  }

  /** Sections appear in strictly ascending numeric order, one for each section number of
      the input and no other. */
  lemma RenderSectionOrder(tasks: seq<Task>)
    requires tasks != []
    ensures var ss := Render(tasks).sections;
      && (forall i, j :: 0 <= i < j < |ss| ==> ss[i].number < ss[j].number)
      && (set i | 0 <= i < |ss| :: ss[i].number) == SectionNumbers(tasks)
  {
    var grouped := Grouped(tasks);
    var keys := SortedKeys(grouped.Keys);
    var ss := Render(tasks).sections;
    GroupedKeys(tasks);
    assert forall i :: 0 <= i < |ss| ==> ss[i].number == keys[i];
    forall k | k in SectionNumbers(tasks) ensures k in (set i | 0 <= i < |ss| :: ss[i].number) {
      var i :| 0 <= i < |keys| && keys[i] == k;
      assert ss[i].number == k;
    }
  }

  /** Each section is headed by the name of its first task, and lists exactly that section's
      tasks sorted by task number, with ties in input order. */
  lemma RenderSectionContents(tasks: seq<Task>)
    requires tasks != []
    ensures var ss := Render(tasks).sections;
      forall i :: 0 <= i < |ss| ==>
        && FirstNameOf(tasks, ss[i].number, ss[i].name)
        && SortedByTaskNumber(ss[i].tasks)
        && multiset(ss[i].tasks) == multiset(InSection(tasks, ss[i].number))
        && forall n :: NumberedAs(ss[i].tasks, n) == NumberedAs(InSection(tasks, ss[i].number), n)
  {
    var grouped := Grouped(tasks);
    var ss := Render(tasks).sections;
    GroupedTasks(tasks);
    GroupedNames(tasks);
    forall i, n | 0 <= i < |ss| ensures NumberedAs(ss[i].tasks, n) == NumberedAs(InSection(tasks, ss[i].number), n) {
      SortIsStable(grouped[ss[i].number].tasks, n);
    }
  }

  /** All the tasks of the sections, one section after another. */
  function AllTasks(sections: seq<Section>): seq<Task>
  {
    if sections == [] then [] else sections[0].tasks + AllTasks(sections[1..])
  }

  /** The tasks of the listed sections, counted with multiplicity. */
  ghost function InSections(tasks: seq<Task>, keys: seq<int>): multiset<Task>
  {
    if keys == [] then multiset{} else multiset(InSection(tasks, keys[0])) + InSections(tasks, keys[1..])
  }

  lemma {:induction false} AllTasksOfSections(tasks: seq<Task>, grouped: map<int, Group>, keys: seq<int>)
    requires forall i :: 0 <= i < |keys| ==> keys[i] in grouped && grouped[keys[i]].tasks == InSection(tasks, keys[i])
    ensures multiset(AllTasks(SectionsOf(grouped, keys))) == InSections(tasks, keys)
  {
    if keys != [] {
      AllTasksOfSections(tasks, grouped, keys[1..]);
      assert SectionsOf(grouped, keys)[1..] == SectionsOf(grouped, keys[1..]);
    }
  }

  lemma {:induction false} InSectionsCons(t: Task, rest: seq<Task>, keys: seq<int>)
    requires forall i, j :: 0 <= i < j < |keys| ==> keys[i] != keys[j]
    ensures InSections([t] + rest, keys)
         == InSections(rest, keys) + (if t.sectionNumber in keys then multiset{t} else multiset{})
  {
    if keys != [] {
      InSectionsCons(t, rest, keys[1..]);
      assert ([t] + rest)[1..] == rest;
      if keys[0] == t.sectionNumber {
        assert t.sectionNumber !in keys[1..];
      }
    }
  }

  lemma {:induction false} InSectionsCover(tasks: seq<Task>, keys: seq<int>)
    requires forall i, j :: 0 <= i < j < |keys| ==> keys[i] != keys[j]
    requires forall i :: 0 <= i < |tasks| ==> tasks[i].sectionNumber in keys
    ensures InSections(tasks, keys) == multiset(tasks)
  {
    if tasks == [] {
      InSectionsEmpty(keys);
    } else {
      InSectionsCover(tasks[1..], keys);
      InSectionsCons(tasks[0], tasks[1..], keys);
      assert tasks == [tasks[0]] + tasks[1..];
    }
  }

  lemma {:induction false} InSectionsEmpty(keys: seq<int>)
    ensures InSections([], keys) == multiset{}
  {
    if keys != [] {
      InSectionsEmpty(keys[1..]);
    }
  }

  /** Rendering neither drops nor duplicates a task: the sections together hold exactly the
      input tasks, each as often as in the input. */
  lemma RenderPartition(tasks: seq<Task>)
    requires tasks != []
    ensures multiset(AllTasks(Render(tasks).sections)) == multiset(tasks)
    ensures |AllTasks(Render(tasks).sections)| == |tasks|
  {
    var grouped := Grouped(tasks);
    var keys := SortedKeys(grouped.Keys);
    GroupedKeys(tasks);
    GroupedTasks(tasks);
    AllTasksOfSections(tasks, grouped, keys);
    forall i | 0 <= i < |tasks| ensures tasks[i].sectionNumber in keys {
      assert tasks[i].sectionNumber in SectionNumbers(tasks);
    }
    InSectionsCover(tasks, keys);
    assert |multiset(AllTasks(Render(tasks).sections))| == |multiset(tasks)|;
  }
}
