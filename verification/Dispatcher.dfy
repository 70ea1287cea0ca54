// dispatcher.cpp: tasks that other threads hand to the dispatcher's own one. Each method
// is a section under one lock, or a step of the dispatcher's thread, so that a run is any
// interleaving of them.

module Dispatchers {
  import opened Basics

  datatype Task = AddTask(id: nat) | StopTask(id: nat) | UserTask(k: nat)

  /** A step of one of the threads. AddTimer from another thread is MakeId, then PostAdd. */
  datatype Event =
    | MakeId(thread: nat)
    | PostAdd(thread: nat)
    | Post(task: Task)      // StopTimer from another thread, or PostTask; not of a timer
    | LocalAdd
    | LocalStop(id: nat)
    | Swap
    | ExecOne

  datatype State = State(
    made: seq<nat>,          // the ids made so far
    held: map<nat, nat>,     // the ids of threads that are in AddTimer
    taskList: seq<Task>,
    batch: seq<Task>,        // what is left of the batch that was swapped out
    timers: set<nat>,
    posted: seq<Task>,
    executed: seq<Task>,
    stopped: set<nat>)       // the ids that StopTimer has run for

  /** The id made by the next increment of a 32-bit counter. */
  function IdOf(created: nat): nat {
    (created + 1) % WRAP
  }

  ghost function Applied(s: State, task: Task): State {
    match task
    case AddTask(id) => s.(timers := s.timers + {id})
    case StopTask(id) => s.(timers := s.timers - {id}, stopped := s.stopped + {id})
    case UserTask(_) => s
  }

  ghost function Posted(s: State, task: Task): State {
    s.(taskList := s.taskList + [task], posted := s.posted + [task])
  }

  ghost function Made(s: State): State {
    s.(made := s.made + [IdOf(|s.made|)])
  }

  /** A step; one that is not possible, as of a thread that is not in AddTimer, is none. */
  ghost function Next(s: State, e: Event): State {
    match e
    case MakeId(t) =>
      if t in s.held then s else Made(s).(held := s.held[t := IdOf(|s.made|)])
    case PostAdd(t) =>
      if t in s.held then Posted(s, AddTask(s.held[t])).(held := s.held - {t}) else s
    case Post(task) => if task.AddTask? then s else Posted(s, task)
    case LocalAdd => Applied(Made(s), AddTask(IdOf(|s.made|)))
    case LocalStop(id) => Applied(s, StopTask(id))
    case Swap => if s.batch == [] then s.(batch := s.taskList, taskList := []) else s
    case ExecOne =>
      if s.batch == [] then s
      else Applied(s, s.batch[0]).(batch := s.batch[1..], executed := s.executed + [s.batch[0]])
  }

  const START := State([], map[], [], [], {}, [], [], {})

  ghost function After(events: seq<Event>): State {
    if events == [] then START else Next(After(events[..|events| - 1]), events[|events| - 1])
  }

  ghost function TimersAfter(timers: set<nat>, tasks: seq<Task>): set<nat>
    decreases |tasks|
  {
    if tasks == [] then timers
    else match tasks[0]
      case AddTask(id) => TimersAfter(timers + {id}, tasks[1..])
      case StopTask(id) => TimersAfter(timers - {id}, tasks[1..])
      case UserTask(_) => TimersAfter(timers, tasks[1..])
  }

  class Dispatcher {
    var timerIdCreater: nat
    var taskList: seq<Task>
    var funcVec: seq<Task>
    var timers: set<nat>

    constructor ()
      ensures timerIdCreater == 0 && taskList == [] && funcVec == [] && timers == {}
    {
      timerIdCreater, taskList, funcVec, timers := 0, [], [], {};
    }

    method MakeTimerID() returns (id: nat)
      modifies `timerIdCreater
      ensures id == timerIdCreater == IdOf(old(timerIdCreater))
    {
      timerIdCreater := (timerIdCreater + 1) % WRAP;
      id := timerIdCreater;
    }

    method PostTask(task: Task)
      modifies `taskList
      ensures taskList == old(taskList) + [task]
    {
      taskList := taskList + [task];
    }

    /** AddTimer on the dispatcher's thread. */
    method AddTimer() returns (id: nat)
      modifies `timerIdCreater, `timers
      ensures id == timerIdCreater == IdOf(old(timerIdCreater)) && timers == old(timers) + {id}
    {
      id := MakeTimerID();
      timers := timers + {id};
    }

    /** StopTimer on the dispatcher's thread. */
    method StopTimer(id: nat)
      modifies `timers
      ensures timers == old(timers) - {id}
    {
      if id !in timers {
        return;
      }
      timers := timers - {id};
    }

    /** The first half of DoTask, under the lock. */
    method SwapTasks()
      requires funcVec == []
      modifies `taskList, `funcVec
      ensures funcVec == old(taskList) && taskList == []
    {
      funcVec, taskList := taskList, funcVec;
    }

    /** One round of its loop. */
    method DoOne() returns (task: Task)
      requires funcVec != []
      modifies `funcVec, `timers
      ensures task == old(funcVec)[0] && funcVec == old(funcVec)[1..]
      ensures match task
        case AddTask(id) => timers == old(timers) + {id}
        case StopTask(id) => timers == old(timers) - {id}
        case UserTask(_) => timers == old(timers)
    {
      task := funcVec[0];
      funcVec := funcVec[1..];
      match task {
        case AddTask(id) => timers := timers + {id};
        case StopTask(id) => StopTimer(id);
        case UserTask(_) =>
      }
    }

    /** DoTask with nobody posting meanwhile. */
    method DoTask() returns (done: seq<Task>)
      requires funcVec == []
      modifies this
      ensures done == old(taskList) && taskList == [] && funcVec == []
      ensures timers == TimersAfter(old(timers), done)
      ensures timerIdCreater == old(timerIdCreater)
    {
      SwapTasks();
      done := [];
      while funcVec != []
        invariant TimersAfter(timers, funcVec) == TimersAfter(old(timers), old(taskList))
        invariant done + funcVec == old(taskList) && taskList == [] && timerIdCreater == old(timerIdCreater)
        decreases |funcVec|
      {
        var task := DoOne();
        done := done + [task];
      }
    }
  }

  predicate Counts(made: nat, counter: nat) {
    made % WRAP == counter
  }

  lemma {:induction false} CountsOn(made: nat, counter: nat)
    requires Counts(made, counter)
    ensures IdOf(made) == IdOf(counter) && Counts(made + 1, IdOf(counter))
  {
  }

  /** What holds of the counter: it is the number of ids made, until that wraps. */
  ghost predicate Shows(d: Dispatcher, held: map<nat, nat>, s: State)
    reads d
  {
    && Counts(|s.made|, d.timerIdCreater) && s.held == held
    && s.taskList == d.taskList && s.batch == d.funcVec && s.timers == d.timers
  }

  function Listed<T>(x: Option<T>): seq<T> {
    if x == None then [] else [x.value]
  }

  method Do(d: Dispatcher, e: Event, held: map<nat, nat>, ghost s: State) returns (held': map<nat, nat>, ran: Option<Task>, made: Option<nat>)
    requires Shows(d, held, s)
    modifies d
    ensures Shows(d, held', Next(s, e))
    ensures Next(s, e).executed == s.executed + Listed(ran) && Next(s, e).made == s.made + Listed(made)
  {
    hide IdOf, Counts;
    held', ran, made := held, None, None;
    CountsOn(|s.made|, d.timerIdCreater);
    match e {
      case MakeId(t) =>
        if t !in held {
          var id := d.MakeTimerID();
          held' := held[t := id];
          made := Some(id);
        }
      case PostAdd(t) =>
        if t in held {
          d.PostTask(AddTask(held[t]));
          held' := held - {t};
        }
      case Post(task) =>
        if !task.AddTask? {
          d.PostTask(task);
        }
      case LocalAdd =>
        var id := d.AddTimer();
        made := Some(id);
      case LocalStop(id) =>
        d.StopTimer(id);
      case Swap =>
        if d.funcVec == [] {
          d.SwapTasks();
        }
      case ExecOne =>
        if d.funcVec != [] {
          var task := d.DoOne();
          ran := Some(task);
        }
    }
  }

  lemma {:induction false} AfterOne(events: seq<Event>, k: nat)
    requires k < |events|
    ensures After(events[..k + 1]) == Next(After(events[..k]), events[k])
  {
    assert events[..k + 1][..k] == events[..k];
  }

  /** Any interleaving does what the steps on a plain state do. */
  method Run(events: seq<Event>) returns (made: seq<nat>, executed: seq<Task>, timers: set<nat>)
    ensures made == After(events).made && executed == After(events).executed && timers == After(events).timers
  {
    hide Next;
    var d := new Dispatcher();
    var held := map[];
    made, executed := [], [];
    for i := 0 to |events|
      invariant fresh(d) && Shows(d, held, After(events[..i]))
      invariant made == After(events[..i]).made && executed == After(events[..i]).executed
    {
      AfterOne(events, i);
      var ran, id;
      held, ran, id := Do(d, events[i], held, After(events[..i]));
      made, executed := made + Listed(id), executed + Listed(ran);
    }
    timers := d.timers;
    assert events[..|events|] == events;
  }

  // What every interleaving keeps.

  ghost predicate Once(tasks: seq<Task>) {
    forall p, q :: 0 <= p < q < |tasks| && tasks[p].AddTask? ==> tasks[p] != tasks[q]
  }

  /** The tasks posted are those executed, then those of the batch, then those of the list. */
  ghost predicate Handed(s: State) {
    s.posted == s.executed + s.batch + s.taskList
  }

  ghost predicate Below(tasks: seq<Task>, created: nat) {
    forall p :: 0 <= p < |tasks| && tasks[p].AddTask? ==> 0 < tasks[p].id <= created
  }

  /** The ids of threads in AddTimer are their own, and not posted yet. */
  ghost predicate Own(held: map<nat, nat>, created: nat, posted: seq<Task>) {
    && (forall t :: t in held ==> 0 < held[t] <= created)
    && (forall t, p :: t in held && 0 <= p < |posted| ==> posted[p] != AddTask(held[t]))
    && (forall t, u :: t in held && u in held && t != u ==> held[t] != held[u])
  }

  /** No id is posted twice. */
  ghost predicate Distinct(s: State) {
    Once(s.posted) && Below(s.posted, |s.made|) && Own(s.held, |s.made|, s.posted)
  }

  /** A timer stopped by a task after it was added by one is gone. */
  ghost predicate Gone(executed: seq<Task>, timers: set<nat>) {
    forall p, q :: 0 <= p < q < |executed| && executed[p].AddTask? && executed[q] == StopTask(executed[p].id) ==>
      executed[p].id !in timers
  }

  /** One added by a task is there unless it was stopped. */
  ghost predicate There(executed: seq<Task>, timers: set<nat>, stopped: set<nat>) {
    forall p :: 0 <= p < |executed| && executed[p].AddTask? ==> executed[p].id in timers || executed[p].id in stopped
  }

  lemma {:induction false} HandedNext(s: State, e: Event)
    requires Handed(s)
    ensures Handed(Next(s, e))
  {
  }

  lemma {:induction false} OwnMore(held: map<nat, nat>, created: nat, posted: seq<Task>, t: nat)
    requires Below(posted, created) && Own(held, created, posted) && t !in held && created + 1 < WRAP
    ensures Below(posted, created + 1) && Own(held[t := IdOf(created)], created + 1, posted)
  {
  }

  lemma {:induction false} OwnLater(held: map<nat, nat>, created: nat, posted: seq<Task>)
    requires Below(posted, created) && Own(held, created, posted)
    ensures Below(posted, created + 1) && Own(held, created + 1, posted)
  {
  }

  lemma {:induction false} OwnPosts(held: map<nat, nat>, created: nat, posted: seq<Task>, t: nat)
    requires t in held && Once(posted) && Below(posted, created) && Own(held, created, posted)
    ensures Once(posted + [AddTask(held[t])]) && Below(posted + [AddTask(held[t])], created)
    ensures Own(held - {t}, created, posted + [AddTask(held[t])])
  {
  }

  lemma {:induction false} OtherPosts(held: map<nat, nat>, created: nat, posted: seq<Task>, task: Task)
    requires !task.AddTask? && Once(posted) && Below(posted, created) && Own(held, created, posted)
    ensures Once(posted + [task]) && Below(posted + [task], created) && Own(held, created, posted + [task])
  {
  }

  lemma {:induction false} DistinctNext(s: State, e: Event)
    requires Distinct(s) && |Next(s, e).made| < WRAP
    ensures Distinct(Next(s, e))
  {
    hide Once, Below, Own, IdOf;
    match e
    case MakeId(t) => if t !in s.held { OwnMore(s.held, |s.made|, s.posted, t); }
    case PostAdd(t) => if t in s.held { OwnPosts(s.held, |s.made|, s.posted, t); }
    case Post(task) => if !task.AddTask? { OtherPosts(s.held, |s.made|, s.posted, task); }
    case LocalAdd => OwnLater(s.held, |s.made|, s.posted);
    case _ =>
  }

  /** A task that adds a timer has not been executed before. */
  lemma {:induction false} GoneOne(executed: seq<Task>, timers: set<nat>, stopped: set<nat>, task: Task, rest: seq<Task>)
    requires Gone(executed, timers) && There(executed, timers, stopped) && Once(executed + [task] + rest)
    ensures match task
      case AddTask(id) => Gone(executed + [task], timers + {id}) && There(executed + [task], timers + {id}, stopped)
      case StopTask(id) => Gone(executed + [task], timers - {id}) && There(executed + [task], timers - {id}, stopped + {id})
      case UserTask(_) => Gone(executed + [task], timers) && There(executed + [task], timers, stopped)
  {
    var all := executed + [task] + rest;
    var n := |executed|;
    forall p | 0 <= p < n && executed[p].AddTask?
      ensures executed[p] != task
    {
      assert all[p] == executed[p] && all[n] == task;
    }
  }

  lemma {:induction false} GoneLocal(executed: seq<Task>, timers: set<nat>, stopped: set<nat>, created: nat, rest: seq<Task>, id: nat)
    requires Gone(executed, timers) && There(executed, timers, stopped)
    requires Below(executed + rest, created)
    ensures created + 1 < WRAP ==> Gone(executed, timers + {IdOf(created)}) && There(executed, timers + {IdOf(created)}, stopped)
    ensures Gone(executed, timers - {id}) && There(executed, timers - {id}, stopped + {id})
  {
    var all := executed + rest;
    forall p | 0 <= p < |executed| && executed[p].AddTask?
      ensures executed[p].id <= created
    {
      assert all[p] == executed[p];
    }
  }

  /** The steps that change the timers. */
  lemma {:induction false} TimersNext(s: State, e: Event)
    ensures e.LocalAdd? ==> Next(s, e).executed == s.executed && Next(s, e).stopped == s.stopped
                            && Next(s, e).timers == s.timers + {IdOf(|s.made|)} && |Next(s, e).made| == |s.made| + 1
    ensures e.LocalStop? ==> Next(s, e).executed == s.executed && Next(s, e).stopped == s.stopped + {e.id}
                             && Next(s, e).timers == s.timers - {e.id}
    ensures e.ExecOne? && s.batch != [] ==> Next(s, e).executed == s.executed + [s.batch[0]]
                                            && Next(s, e).timers == Applied(s, s.batch[0]).timers
                                            && Next(s, e).stopped == Applied(s, s.batch[0]).stopped
    ensures !e.LocalAdd? && !e.LocalStop? && !(e.ExecOne? && s.batch != []) ==>
              Next(s, e).executed == s.executed && Next(s, e).timers == s.timers && Next(s, e).stopped == s.stopped
  {
  }

  lemma {:induction false} SettledNext(s: State, e: Event)
    requires Handed(s) && Distinct(s) && |Next(s, e).made| < WRAP
    requires Gone(s.executed, s.timers) && There(s.executed, s.timers, s.stopped)
    ensures Gone(Next(s, e).executed, Next(s, e).timers)
    ensures There(Next(s, e).executed, Next(s, e).timers, Next(s, e).stopped)
  {
    hide Once, Below, Own, IdOf, Gone, There, Next;
    TimersNext(s, e);
    assert s.posted == s.executed + (s.batch + s.taskList);
    match e
    case LocalAdd => GoneLocal(s.executed, s.timers, s.stopped, |s.made|, s.batch + s.taskList, 0);
    case LocalStop(id) => GoneLocal(s.executed, s.timers, s.stopped, |s.made|, s.batch + s.taskList, id);
    case ExecOne =>
      if s.batch != [] {
        var task, rest := s.batch[0], s.batch[1..] + s.taskList;
        assert s.posted == s.executed + [task] + rest;
        GoneOne(s.executed, s.timers, s.stopped, task, rest);
      }
    case _ =>
  }

  /** Every task posted is executed, waits in the batch or waits in the list, once and in
      the order of the posts, in any interleaving; and as long as the counter of ids has
      not wrapped the timers are as the tasks executed say. */
  lemma {:induction false} Kept(events: seq<Event>)
    ensures Handed(After(events))
    ensures |After(events).made| < 0x1_0000_0000 ==>
      && Distinct(After(events)) && Gone(After(events).executed, After(events).timers)
      && There(After(events).executed, After(events).timers, After(events).stopped)
  {
    hide Handed, Distinct, Gone, There;
    if events == [] {
      KeptFirst();
    } else {
      var before := After(events[..|events| - 1]);
      Kept(events[..|events| - 1]);
      HandedNext(before, events[|events| - 1]);
      MadeNext(before, events[|events| - 1]);
      if |After(events).made| < 0x1_0000_0000 {
        DistinctNext(before, events[|events| - 1]);
        SettledNext(before, events[|events| - 1]);
      }
    }
  }

  lemma {:induction false} KeptFirst()
    ensures Handed(START) && Distinct(START) && Gone([], {}) && There([], {}, {})
  {
  }

  lemma {:induction false} PostedNext(s: State, e: Event)
    ensures s.posted <= Next(s, e).posted
    ensures match e
      case PostAdd(t) => t in s.held ==> Next(s, e).posted == s.posted + [AddTask(s.held[t])]
      case Post(task) => !task.AddTask? ==> Next(s, e).posted == s.posted + [task]
      case _ => true
  {
  }

  lemma {:induction false} Prefixes<T>(a: seq<T>, b: seq<T>, c: seq<T>)
    requires a <= b <= c
    ensures a <= c
  {
  }

  lemma {:induction false} PostedGrows(events: seq<Event>, j: nat, k: nat)
    requires j <= k <= |events|
    ensures After(events[..j]).posted <= After(events[..k]).posted
  {
    hide Next, After;
    if j < k {
      PostedGrows(events, j, k - 1);
      AfterOne(events, k - 1);
      PostedNext(After(events[..k - 1]), events[k - 1]);
      Prefixes(After(events[..j]).posted, After(events[..k - 1]).posted, After(events[..k]).posted);
    }
  }

  /** A thread that has added a timer, and then anyone stops it, both from outside the
      dispatcher's thread: once both tasks have been executed the timer is gone, whatever
      the other threads do in between. */
  lemma {:induction false} AddThenStop(events: seq<Event>, j: nat, k: nat, thread: nat)
    requires |After(events).made| < 0x1_0000_0000 && j < k < |events| && events[j] == PostAdd(thread)
    requires thread in After(events[..j]).held
    requires events[k] == Post(StopTask(After(events[..j]).held[thread]))
    requires |After(events).executed| > |After(events[..k]).posted|
    ensures After(events[..j]).held[thread] !in After(events).timers
  {
    hide Next, After, Once, Below, Own, There;
    var id := After(events[..j]).held[thread];
    PostedNext(After(events[..j]), events[j]);
    PostedNext(After(events[..k]), events[k]);
    var p, q := |After(events[..j]).posted|, |After(events[..k]).posted|;
    AfterOne(events, j);
    AfterOne(events, k);
    PostedGrows(events, j + 1, k);
    PostedGrows(events, k + 1, |events|);
    assert events[..|events|] == events;
    Kept(events);
    var s := After(events);
    assert p < q;
    assert s.posted[p] == AddTask(id) && s.posted[q] == StopTask(id);
    assert s.executed[p] == AddTask(id) && s.executed[q] == StopTask(id);
  }

  // What is posted is executed.

  /** How often the dispatcher's thread executes a task, if it has one. */
  function Execs(events: seq<Event>): nat {
    if events == [] then 0
    else Execs(events[..|events| - 1]) + if events[|events| - 1] == ExecOne then 1 else 0
  }

  /** As long as the batch has tasks each ExecOne executes one of them, whatever the other
      threads do; and the tasks executed or in the batch stay so, until a swap adds all that
      had been posted. */
  lemma {:induction false} BatchRuns(events: seq<Event>, more: seq<Event>)
    ensures var s, t := After(events), After(events + more);
            && |t.executed| >= |s.executed| + Min(|s.batch|, Execs(more))
            && (|t.executed + t.batch| == |s.executed + s.batch| || |t.executed + t.batch| >= |s.posted|)
  {
    hide Next, After;
    if more == [] {
      assert events + more == events;
    } else {
      var n := |more| - 1;
      BatchRuns(events, more[..n]);
      AfterMore(events, more[..n], more[n]);
      assert more[..n] + [more[n]] == more;
      PostedGrows(events + more[..n], |events|, |events + more[..n]|);
      assert (events + more[..n])[..|events|] == events && (events + more[..n])[..|events + more[..n]|] == events + more[..n];
      Kept(events);
      Kept(events + more[..n]);
      StepRuns(After(events + more[..n]), more[n]);
    }
  }

  lemma {:induction false} StepRuns(s: State, e: Event)
    ensures var t := Next(s, e);
            && |t.executed| == |s.executed| + (if e == ExecOne && s.batch != [] then 1 else 0)
            && (if e == Swap && s.batch == [] then t.batch == s.taskList
                else |t.executed + t.batch| == |s.executed + s.batch|)
  {
  }

  lemma {:induction false} AfterMore(events: seq<Event>, more: seq<Event>, e: Event)
    ensures After(events + (more + [e])) == Next(After(events + more), e)
  {
    hide Next, After;
    var all := events + (more + [e]);
    AfterOne(all, |all| - 1);
    assert all[..|all| - 1] == events + more && all[..|all|] == all;
  }

  /** A task that is posted is executed, in any interleaving in which the dispatcher's
      thread goes on: when it has done what was left of its batch, swapped, and done what
      it got then, all that was posted at first has been executed. */
  lemma {:induction false} Progress(events: seq<Event>, a: seq<Event>, b: seq<Event>)
    requires Execs(a) >= |After(events).batch|
    requires Execs(b) >= |After(events + a + [Swap]).batch|
    ensures After(events).posted <= After(events + a + [Swap] + b).executed
  {
    hide Next, After, Execs;
    var s, t, u, v := After(events), After(events + a), After(events + a + [Swap]), After(events + a + [Swap] + b);
    BatchRuns(events, a);
    AfterMore(events + a, [], Swap);
    assert events + a + [] == events + a && events + a + ([] + [Swap]) == events + a + [Swap];
    StepRuns(t, Swap);
    Kept(events + a);
    PostedLater(events, a);
    BatchRuns(events + a + [Swap], b);
    PostedLater(events, a + [Swap] + b);
    assert events + (a + [Swap] + b) == events + a + [Swap] + b;
    Kept(events + a + [Swap] + b);
    assert |v.executed| >= |s.posted|;
    assert v.executed <= v.posted;
  }

  lemma {:induction false} PostedLater(events: seq<Event>, more: seq<Event>)
    ensures After(events).posted <= After(events + more).posted
  {
    var all := events + more;
    PostedGrows(all, |events|, |all|);
    assert all[..|events|] == events && all[..|all|] == all;
  }

  /** With nobody posting, one call of DoTask on an empty batch leaves nothing undone. */
  lemma {:induction false} Drained(events: seq<Event>)
    requires After(events).batch == []
    ensures var s, n := After(events), |After(events).taskList|;
            After(events + [Swap] + seq(n, _ => ExecOne)).executed == s.posted
  {
    hide Next, After, Execs;
    var n := |After(events).taskList|;
    var b := seq(n, _ => ExecOne);
    assert events + [] == events;
    AfterMore(events, [], Swap);
    assert [] + [Swap] == [Swap];
    SwapsAll(After(events));
    ExecsAll(n);
    Progress(events, [], b);
    NothingPosted(events + [Swap], b);
    Kept(events + [Swap] + b);
  }

  lemma {:induction false} SwapsAll(s: State)
    requires s.batch == []
    ensures Next(s, Swap).batch == s.taskList && Next(s, Swap).posted == s.posted
    ensures Execs([]) == 0
  {
  }

  lemma {:induction false} ExecsAll(n: nat)
    ensures Execs(seq(n, _ => ExecOne)) == n
  {
    if n > 0 {
      ExecsAll(n - 1);
      assert seq(n, _ => ExecOne)[..n - 1] == seq(n - 1, _ => ExecOne);
    }
  }

  lemma {:induction false} NothingPosted(events: seq<Event>, more: seq<Event>)
    requires forall i :: 0 <= i < |more| ==> more[i] == ExecOne
    ensures After(events + more).posted == After(events).posted
  {
    hide After;
    if more == [] {
      assert events + more == events;
    } else {
      var n := |more| - 1;
      NothingPosted(events, more[..n]);
      AfterMore(events, more[..n], ExecOne);
      assert more[..n] + [ExecOne] == more;
      assert Next(After(events + more[..n]), ExecOne).posted == After(events + more[..n]).posted;
    }
  }

  lemma {:induction false} HeldOn(s: State, e: Event, thread: nat)
    ensures thread in s.held && e != PostAdd(thread) ==>
              thread in Next(s, e).held && Next(s, e).held[thread] == s.held[thread]
  {
  }

  lemma {:induction false} StillHeld(events: seq<Event>, more: seq<Event>, thread: nat)
    requires thread in After(events).held && PostAdd(thread) !in more
    ensures thread in After(events + more).held && After(events + more).held[thread] == After(events).held[thread]
  {
    hide Next, After;
    if more == [] {
      assert events + more == events;
    } else {
      var n := |more| - 1;
      StillHeld(events, more[..n], thread);
      AfterMore(events, more[..n], more[n]);
      assert more[..n] + [more[n]] == more;
      HeldOn(After(events + more[..n]), more[n], thread);
    }
  }

  /** AddTimer on another thread: the id it is given is the one it posts the timer with,
      whatever happens between the two locks. */
  lemma {:induction false} AddFromOutside(events: seq<Event>, thread: nat, mid: seq<Event>)
    requires thread !in After(events).held && PostAdd(thread) !in mid
    ensures var id := IdOf(|After(events).made|);
            var begun := events + [MakeId(thread)];
            && After(begun).made == After(events).made + [id]
            && After(begun + mid + [PostAdd(thread)]).posted == After(begun + mid).posted + [AddTask(id)]
            && thread !in After(begun + mid + [PostAdd(thread)]).held
  {
    hide After, IdOf;
    AfterMore(events, [], MakeId(thread));
    assert events + [] == events && [] + [MakeId(thread)] == [MakeId(thread)];
    var begun := events + [MakeId(thread)];
    StillHeld(begun, mid, thread);
    AfterMore(begun, mid, PostAdd(thread));
    assert begun + (mid + [PostAdd(thread)]) == begun + mid + [PostAdd(thread)];
  }

  /** So a timer that was added and then stopped from outside goes. */
  lemma {:induction false} AddedThenGone(events: seq<Event>, j: nat, k: nat, thread: nat, a: seq<Event>, b: seq<Event>)
    requires j < k < |events| && events[j] == PostAdd(thread) && thread in After(events[..j]).held
    requires events[k] == Post(StopTask(After(events[..j]).held[thread]))
    requires Execs(a) >= |After(events).batch| && Execs(b) >= |After(events + a + [Swap]).batch|
    requires |After(events + a + [Swap] + b).made| < 0x1_0000_0000
    ensures After(events[..j]).held[thread] !in After(events + a + [Swap] + b).timers
  {
    hide Next, After, Execs;
    var all := events + a + [Swap] + b;
    assert all[..j] == events[..j] && all[..k] == events[..k] && all[j] == events[j] && all[k] == events[k];
    Progress(events, a, b);
    PostedGrows(events, k + 1, |events|);
    assert events[..|events|] == events;
    AfterOne(events, k);
    PostedNext(After(events[..k]), events[k]);
    AddThenStop(all, j, k, thread);
  }

  /** And one that was added from outside and nobody stops is set. */
  lemma {:induction false} AddedIsSet(events: seq<Event>, j: nat, thread: nat, a: seq<Event>, b: seq<Event>)
    requires j < |events| && events[j] == PostAdd(thread) && thread in After(events[..j]).held
    requires Execs(a) >= |After(events).batch| && Execs(b) >= |After(events + a + [Swap]).batch|
    requires var all, id := events + a + [Swap] + b, After(events[..j]).held[thread];
             |After(all).made| < 0x1_0000_0000 && LocalStop(id) !in all && Post(StopTask(id)) !in all
    ensures After(events[..j]).held[thread] in After(events + a + [Swap] + b).timers
  {
    hide Next, After, Execs, Distinct, Gone;
    var all, id := events + a + [Swap] + b, After(events[..j]).held[thread];
    Progress(events, a, b);
    AfterOne(events, j);
    PostedNext(After(events[..j]), events[j]);
    PostedGrows(events, j + 1, |events|);
    assert events[..|events|] == events;
    var p := |After(events[..j]).posted|;
    assert After(events).posted[p] == AddTask(id);
    assert After(all).executed[p] == AddTask(id);
    Kept(all);
    OnlyStopped(all, id);
  }

  /** A timer is stopped only by a call of StopTimer with its id. */
  lemma {:induction false} OnlyStopped(events: seq<Event>, id: nat)
    requires LocalStop(id) !in events && Post(StopTask(id)) !in events
    ensures id !in After(events).stopped && StopTask(id) !in After(events).posted
  {
    hide After;
    if events == [] {
      NoneStopped(id);
    } else {
      var n := |events| - 1;
      OnlyStopped(events[..n], id);
      AfterOne(events, n);
      assert events[..n + 1] == events && events[n] in events;
      Kept(events[..n]);
      StopStep(After(events[..n]), events[n], id);
    }
  }

  lemma NoneStopped(id: nat)
    ensures id !in After([]).stopped && StopTask(id) !in After([]).posted
  {
  }

  lemma {:induction false} StopStep(s: State, e: Event, id: nat)
    requires Handed(s) && id !in s.stopped && StopTask(id) !in s.posted
    requires e != LocalStop(id) && e != Post(StopTask(id))
    ensures id !in Next(s, e).stopped && StopTask(id) !in Next(s, e).posted
  {
    assert s.batch != [] ==> s.batch[0] in s.posted;
  }

  lemma {:induction false} MadeNext(s: State, e: Event)
    ensures Next(s, e).made == s.made || Next(s, e).made == s.made + [IdOf(|s.made|)]
  {
  }

  lemma {:induction false} IdsAreMade(events: seq<Event>, k: nat)
    requires k < |After(events).made|
    ensures After(events).made[k] == IdOf(k)
  {
    hide Next, IdOf;
    var before := events[..|events| - 1];
    MadeNext(After(before), events[|events| - 1]);
    if k < |After(before).made| {
      IdsAreMade(before, k);
    }
  }

  /** Of the ids handed out in a run two are the same just when the counter of 32 bits has
      gone all the way round between them. */
  lemma {:induction false} IdsRepeat(events: seq<Event>, j: nat, k: nat)
    requires j <= k < |After(events).made|
    ensures After(events).made[j] == After(events).made[k] <==> (k - j) % 0x1_0000_0000 == 0
  {
    hide After;
    IdsAreMade(events, j);
    IdsAreMade(events, k);
  }
}
