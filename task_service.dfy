/** `TaskService`: an ordered list of tasks and the set of completed task ids, with
    stream-pipeline queries over them. */
module TaskManager {
  import opened Optional
  import opened JavaInt
  import opened Tasks

  /** Result of `markCompleted`: success, or the `InvalidTaskException` it throws. */
  datatype Outcome = Ok | InvalidTask(message: string)

  const NotFoundMessage := "Task ID not found"
  const AlreadyCompletedMessage := "Task already completed"
  const NoTasksMessage := "No tasks available"

  /** `a` can be obtained from `b` by deleting elements: `a` keeps `b`'s order. */
  predicate IsSubsequence<T(==)>(a: seq<T>, b: seq<T>)
    decreases |b|
  {
    if b == [] then a == []
    else (a != [] && a[0] == b[0] && IsSubsequence(a[1..], b[1..])) || IsSubsequence(a, b[1..])
  }

  /** `stream().filter(p).collect(toList())`. */
  function Filter(s: seq<Task>, p: Task -> bool): (r: seq<Task>)
    ensures |r| <= |s|
  {
    if s == [] then []
    else (if p(s[0]) then [s[0]] else []) + Filter(s[1..], p)
  }

  /** The filter keeps exactly the tasks of the list that satisfy the predicate. */
  lemma {:induction false} FilterMembers(s: seq<Task>, p: Task -> bool)
    ensures forall t :: t in Filter(s, p) ==> t in s && p(t)
    ensures forall t :: t in s && p(t) ==> t in Filter(s, p)
  {
    if s != [] {
      FilterMembers(s[1..], p);
      assert s == [s[0]] + s[1..];
    }
  }

  /** The filter keeps the list order. */
  lemma {:induction false} FilterIsSubsequence(s: seq<Task>, p: Task -> bool)
    ensures IsSubsequence(Filter(s, p), s)
  {
    if s != [] {
      FilterIsSubsequence(s[1..], p);
      if p(s[0]) {
        assert Filter(s, p)[1..] == Filter(s[1..], p);
      } else {
        assert Filter(s, p) == Filter(s[1..], p);
      }
    }
  }

  /** Filtering by a predicate and by its negation splits the list: together the two
      results hold every task exactly as often as the list does. */
  lemma {:induction false} FilterPartition(s: seq<Task>, p: Task -> bool, q: Task -> bool)
    requires forall t :: q(t) == !p(t)
    ensures multiset(Filter(s, p)) + multiset(Filter(s, q)) == multiset(s)
  {
    if s != [] {
      FilterPartition(s[1..], p, q);
      FilterHead(s, p);
      FilterHead(s, q);
      assert s == [s[0]] + s[1..];
    }
  }

  /** What the head of the list contributes to a filter. */
  lemma FilterHead(s: seq<Task>, p: Task -> bool)
    requires s != []
    ensures multiset(Filter(s, p)) ==
      (if p(s[0]) then multiset{s[0]} else multiset{}) + multiset(Filter(s[1..], p))
  {
  }

  /** `stream().map(f).collect(toList())`. */
  function Map<R>(s: seq<Task>, f: Task -> R): (r: seq<R>)
    ensures |r| == |s| && forall i :: 0 <= i < |s| ==> r[i] == f(s[i])
  {
    seq(|s|, i requires 0 <= i < |s| => f(s[i]))
  }

  /** Index of the first task with the given id (`filter(...).findFirst()`). */
  function FirstWithId(s: seq<Task>, id: int32): (r: Option<nat>)
    ensures r.Some? ==> r.value < |s| && s[r.value].id == id
    ensures r.Some? ==> forall j :: 0 <= j < r.value ==> s[j].id != id
    ensures r.None? ==> forall j :: 0 <= j < |s| ==> s[j].id != id
  {
    if s == [] then None
    else if s[0].id == id then Some(0)
    else match FirstWithId(s[1..], id)
      case Some(k) => Some(k + 1)
      case None => None
  }

  /** `reduce((t1, t2) -> t1 + ", " + t2)` over a non-empty list, folding from the left:
      every title plus two characters per separator. */
  function Join(titles: seq<string>): (r: string)
    requires |titles| > 0
    ensures |r| == TotalLength(titles) + 2 * (|titles| - 1)
  {
    if |titles| == 1 then
      assert titles[1..] == [];
      titles[0]
    else
      var init, last := titles[..|titles| - 1], titles[|titles| - 1];
      TotalLengthSnoc(init, last);
      assert init + [last] == titles;
      Join(init) + ", " + last
  }

  /** The joining operator is associative, so the reduction does not depend on how the
      list is split: joining two parts is joining each and placing ", " between. */
  lemma {:induction false} JoinAppend(a: seq<string>, b: seq<string>)
    requires |a| > 0 && |b| > 0
    ensures Join(a + b) == Join(a) + ", " + Join(b)
    decreases |b|
  {
    if |b| > 1 {
      var b', z := b[..|b| - 1], b[|b| - 1];
      JoinAppend(a, b');
      assert (a + b)[..|a + b| - 1] == a + b' && (a + b)[|a + b| - 1] == z;
      var x, y := Join(a), Join(b');
      assert Join(a + b) == (x + ", " + y) + ", " + z;
      assert Join(b) == y + ", " + z;
      assert (x + ", " + y) + ", " + z == x + ", " + (y + ", " + z);
    } else {
      assert (a + b)[..|a + b| - 1] == a;
    }
  }

  function TotalLength(titles: seq<string>): nat
  {
    if titles == [] then 0 else |titles[0]| + TotalLength(titles[1..])
  }

  lemma {:induction false} TotalLengthSnoc(titles: seq<string>, t: string)
    ensures TotalLength(titles + [t]) == TotalLength(titles) + |t|
  {
    if titles != [] {
      TotalLengthSnoc(titles[1..], t);
      assert (titles + [t])[1..] == titles[1..] + [t];
    }
  }

  /** The titles of the tasks, in list order (`map(Task::getTitle)`). */
  function Titles(s: seq<Task>): (r: seq<string>)
    ensures |r| == |s| && forall i :: 0 <= i < |s| ==> r[i] == s[i].title
  {
    Map(s, (t: Task) => t.title)
  }

  /** Where title i starts in the joined string: after the i titles before it and
      their i separators. */
  function Offset(titles: seq<string>, i: int): nat
    requires 0 <= i <= |titles|
  {
    TotalLength(titles[..i]) + 2 * i
  }

  /** Title i of the list sits in r at its offset, and is followed by ", " unless it
      is the last. */
  predicate TitleAt(r: string, titles: seq<string>, i: int)
    requires 0 <= i < |titles|
  {
    var end := Offset(titles, i) + |titles[i]|;
    && end <= |r| && r[Offset(titles, i)..end] == titles[i]
    && (i < |titles| - 1 ==> end + 2 <= |r| && r[end..end + 2] == ", ")
  }

  /** Appending a title does not move the earlier offsets. */
  lemma OffsetSnoc(init: seq<string>, last: string, i: int)
    requires 0 <= i <= |init|
    ensures Offset(init + [last], i) == Offset(init, i)
  {
    assert (init + [last])[..i] == init[..i];
  }

  /** Where each title lands in the joined string: in list order, separated by ", ". */
  lemma {:induction false} JoinLayout(titles: seq<string>)
    requires |titles| > 0
    ensures forall i :: 0 <= i < |titles| ==> TitleAt(Join(titles), titles, i)
  {
    var n := |titles|;
    if n == 1 {
      assert titles[..0] == [];
      assert TitleAt(Join(titles), titles, 0);
    } else {
      var init, last := titles[..n - 1], titles[n - 1];
      assert init + [last] == titles;
      JoinLayout(init);
      var j := Join(init);
      assert Join(titles) == j + ", " + last;
      forall i | 0 <= i < n ensures TitleAt(j + ", " + last, init + [last], i) {
        if i < n - 2 {
          LayoutInner(j, init, last, i);
        } else if i == n - 2 {
          LayoutBoundary(j, init, last);
        } else {
          LayoutLast(j, init, last);
        }
      }
    }
  }

  /** Appending a title keeps a title that was not the last where it was. */
  lemma LayoutInner(j: string, init: seq<string>, last: string, i: int)
    requires 0 <= i < |init| - 1 && TitleAt(j, init, i)
    ensures TitleAt(j + ", " + last, init + [last], i)
  {
    var start := Offset(init, i);
    var end := start + |init[i]|;
    assert j[start..end] == init[i] && j[end..end + 2] == ", ";
    OffsetSnoc(init, last, i);
    SliceOfJoined(j, last, start, end);
    SliceOfJoined(j, last, end, end + 2);
    TitleAtFromParts(j + ", " + last, init + [last], i, start, end);
  }

  /** Appending a title keeps the old last title where it was and puts ", " after it. */
  lemma LayoutBoundary(j: string, init: seq<string>, last: string)
    requires |init| > 0 && |j| == TotalLength(init) + 2 * (|init| - 1)
    requires TitleAt(j, init, |init| - 1)
    ensures TitleAt(j + ", " + last, init + [last], |init| - 1)
  {
    var i := |init| - 1;
    var start := Offset(init, i);
    var end := start + |init[i]|;
    assert j[start..end] == init[i];
    OffsetSnoc(init, last, i);
    TotalLengthSnoc(init[..i], init[i]);
    assert init[..i] + [init[i]] == init;
    assert end == |j|;
    SliceOfJoined(j, last, start, end);
    TitleAtFromParts(j + ", " + last, init + [last], i, start, end);
  }

  /** Appending a title places it after the joined prefix and one separator. */
  lemma LayoutLast(j: string, init: seq<string>, last: string)
    requires |init| > 0 && |j| == TotalLength(init) + 2 * (|init| - 1)
    ensures TitleAt(j + ", " + last, init + [last], |init|)
  {
    var titles := init + [last];
    assert titles[..|init|] == init;
    var start := Offset(titles, |init|);
    assert start == |j| + 2;
    assert (j + ", " + last)[start..start + |last|] == last;
    TitleAtFromParts(j + ", " + last, titles, |init|, start, start + |last|);
  }

  /** TitleAt from its parts. */
  lemma TitleAtFromParts(r: string, titles: seq<string>, i: int, start: int, end: int)
    requires 0 <= i < |titles| && start == Offset(titles, i) && end == start + |titles[i]|
    requires end <= |r| && r[start..end] == titles[i]
    requires i < |titles| - 1 ==> end + 2 <= |r| && r[end..end + 2] == ", "
    ensures TitleAt(r, titles, i)
  {
  }

  /** Joining one more title leaves the joined prefix as it was and puts ", " after it. */
  lemma SliceOfJoined(j: string, last: string, lo: int, hi: int)
    requires 0 <= lo <= hi <= |j|
    ensures (j + ", " + last)[lo..hi] == j[lo..hi]
    ensures (j + ", " + last)[|j|..|j| + 2] == ", "
  {
  }

  class TaskService {
    var tasks: seq<Task>
    var completedTasks: set<int32>

    constructor ()
      ensures tasks == [] && completedTasks == {}
    {
      tasks := [];
      completedTasks := {};
    }

    /** Appends the task, duplicate ids included; the completed set is untouched. */
    method AddTask(task: Task)
      modifies this
      ensures tasks == old(tasks) + [task]
      ensures completedTasks == old(completedTasks)
    {
      tasks := tasks + [task];
    }

    /** Fails "Task ID not found" when no task has the id, then "Task already completed"
        when it is already marked; only a call that passes both checks adds the id. The
        task list never changes. */
    method MarkCompleted(id: int32) returns (outcome: Outcome)
      modifies this
      ensures tasks == old(tasks)
      ensures (forall t :: t in tasks ==> t.id != id) ==>
        outcome == InvalidTask(NotFoundMessage) && completedTasks == old(completedTasks)
      ensures (exists t :: t in tasks && t.id == id) && id in old(completedTasks) ==>
        outcome == InvalidTask(AlreadyCompletedMessage) && completedTasks == old(completedTasks)
      ensures (exists t :: t in tasks && t.id == id) && id !in old(completedTasks) ==>
        outcome == Ok && completedTasks == old(completedTasks) + {id}
    {
      var found := exists t :: t in tasks && t.id == id;
      if !found {
        return InvalidTask(NotFoundMessage);
      }
      if id in completedTasks {
        return InvalidTask(AlreadyCompletedMessage);
      }
      completedTasks := completedTasks + {id};
      return Ok;
    }

    /** The tasks `showCompleted` prints, in list order. */
    function Completed(): (r: seq<Task>)
      reads this
      ensures forall t :: t in r <==> t in tasks && t.id in completedTasks
    {
      var done := completedTasks;
      FilterMembers(tasks, (t: Task) => t.id in done);
      Filter(tasks, (t: Task) => t.id in done)
    }

    /** The tasks `showPending` prints, in list order. */
    function Pending(): (r: seq<Task>)
      reads this
      ensures forall t :: t in r <==> t in tasks && t.id !in completedTasks
    {
      var done := completedTasks;
      FilterMembers(tasks, (t: Task) => t.id !in done);
      Filter(tasks, (t: Task) => t.id !in done)
    }

    function FilterTasks(keep: Task -> bool): (r: seq<Task>)
      reads this
      ensures forall t :: t in r <==> t in tasks && keep(t)
    {
      FilterMembers(tasks, keep);
      Filter(tasks, keep)
    }

    function MapTasks<R>(transform: Task -> R): (r: seq<R>)
      reads this
      ensures |r| == |tasks| && forall i :: 0 <= i < |tasks| ==> r[i] == transform(tasks[i])
    {
      Map(tasks, transform)
    }

    /** The first task in list order with the id, or else what the supplier produces. */
    function GetTaskOrDefault(id: int32, defaultSupplier: () -> Task): (r: Task)
      reads this
      ensures (exists i :: 0 <= i < |tasks| && tasks[i].id == id) ==>
        exists i :: 0 <= i < |tasks| && r == tasks[i] && r.id == id &&
          forall j :: 0 <= j < i ==> tasks[j].id != id
      ensures (forall t :: t in tasks ==> t.id != id) ==> r == defaultSupplier()
    {
      match FirstWithId(tasks, id)
      case Some(i) => tasks[i]
      case None => defaultSupplier()
    }

    /** The titles in list order joined by ", ", or "No tasks available" for no tasks. */
    function CombinedTaskTitles(): (r: string)
      reads this
      ensures tasks == [] ==> r == NoTasksMessage
      ensures |tasks| > 0 ==> r == Join(Titles(tasks))
      ensures |tasks| > 0 ==> |r| == TotalLength(Titles(tasks)) + 2 * (|tasks| - 1)
      ensures |tasks| > 0 ==> forall i :: 0 <= i < |tasks| ==> TitleAt(r, Titles(tasks), i)
    {
      if tasks == [] then NoTasksMessage
      else
        var titles := Titles(tasks);
        JoinLayout(titles);
        Join(titles)
    }
  }

  /** The completed and pending views split the task list: every task lands in exactly
      one of them, as often as it occurs, and each view keeps the list order. */
  lemma ViewsPartition(service: TaskService)
    ensures multiset(service.Completed()) + multiset(service.Pending()) == multiset(service.tasks)
    ensures IsSubsequence(service.Completed(), service.tasks)
    ensures IsSubsequence(service.Pending(), service.tasks)
  {
    var done := service.completedTasks;
    var isDone := (t: Task) => t.id in done;
    FilterPartition(service.tasks, isDone, (t: Task) => t.id !in done);
    FilterIsSubsequence(service.tasks, isDone);
    FilterIsSubsequence(service.tasks, (t: Task) => t.id !in done);
  }
}
