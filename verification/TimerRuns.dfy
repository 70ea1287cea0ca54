// Whole runs of a MinHeapTimer, against a map from ids to the timers that are set.

module TimerRuns {
  import opened TimerHeaps

  datatype Op =
    | Add(now: nat, expire: nat, cb: bool)
    | Delete(id: nat)
    | Expire(now: nat)

  datatype Answer =
    | Added(id: nat)
    | Deleted(found: bool)
    | Fires(ids: seq<nat>)

  /** The timers that are set, and how many ids have been given out. */
  datatype State = State(all: map<nat, Timer>, count: nat)

  ghost function Step(s: State, op: Op): State {
    match op
    case Add(now, expire, cb) => State(s.all[s.count + 1 := Timer(now + expire, cb)], s.count + 1)
    case Delete(id) => State(s.all - {id}, s.count)
    case Expire(now) => State(Later(s.all, now), s.count)
  }

  /** The state after the calls. */
  ghost function After(ops: seq<Op>): State {
    if ops == [] then State(map[], 0) else Step(After(ops[..|ops| - 1]), ops[|ops| - 1])
  }

  /** An answer a call may give: of timers that expire at one time any may fire first. */
  ghost predicate Says(s: State, op: Op, a: Answer) {
    match op
    case Add(_, _, _) => a == Added(s.count + 1) && s.count + 1 !in s.all
    case Delete(id) => a == Deleted(id in s.all)
    case Expire(now) => a.Fires? && Fired(s.all, Later(s.all, now), a.ids, now)
  }

  /** Every answer of a run is one the map allows. */
  ghost predicate Lawful(ops: seq<Op>, answers: seq<Answer>) {
    |answers| == |ops| && forall k :: 0 <= k < |ops| ==> Says(After(ops[..k]), ops[k], answers[k])
  }

  method Call(t: MinHeapTimer, op: Op, ghost s: State) returns (a: Answer)
    requires t.Valid() && s == State(t.Timers(), t.count)
    modifies t, Nodes(t.heap)
    ensures t.Valid() && forall k :: 0 <= k < |t.heap| ==> t.heap[k] in old(t.heap) || fresh(t.heap[k])
    ensures State(t.Timers(), t.count) == Step(s, op) && Says(s, op, a)
  {
    hide MinHeapTimer.Valid, Fired, Later;
    match op {
      case Add(now, expire, cb) =>
        var id := t.AddTimer(now, expire, cb);
        a := Added(id);
      case Delete(id) =>
        var found := t.DelTimer(id);
        a := Deleted(found);
      case Expire(now) =>
        var ids := t.ExpireTimer(now);
        a := Fires(ids);
    }
  }

  lemma {:induction false} AfterOne(ops: seq<Op>, k: nat)
    requires k < |ops|
    ensures After(ops[..k + 1]) == Step(After(ops[..k]), ops[k])
  {
    assert ops[..k + 1][..k] == ops[..k];
  }

  method Run(ops: seq<Op>) returns (answers: seq<Answer>)
    ensures Lawful(ops, answers)
  {
    hide MinHeapTimer.Valid, Step, Says;
    answers := [];
    var t := new MinHeapTimer();
    Empty(ops);
    while |answers| < |ops|
      invariant |answers| <= |ops| && t.Valid()
      invariant fresh(t) && forall k :: 0 <= k < |t.heap| ==> fresh(t.heap[k])
      invariant State(t.Timers(), t.count) == After(ops[..|answers|])
      invariant forall k :: 0 <= k < |answers| ==> Says(After(ops[..k]), ops[k], answers[k])
    {
      AfterOne(ops, |answers|);
      var a := Call(t, ops[|answers|], After(ops[..|answers|]));
      answers := answers + [a];
    }
  }

  lemma {:induction false} Empty(ops: seq<Op>)
    ensures After(ops[..0]) == State(map[], 0)
  {
  }

  /** A timer that is gone stays gone: its id is not given out again. */
  lemma {:induction false} Gone(ops: seq<Op>, j: nat, k: nat, id: nat)
    requires j <= k <= |ops| && id !in After(ops[..j]).all && id <= After(ops[..j]).count
    ensures id !in After(ops[..k]).all && id <= After(ops[..k]).count
  {
    if j < k {
      Gone(ops, j, k - 1, id);
      AfterOne(ops, k - 1);
    }
  }

  /** The ids given out are those up to the count. */
  lemma {:induction false} GivenOut(ops: seq<Op>, id: nat)
    requires id in After(ops).all
    ensures 0 < id <= After(ops).count
  {
    if ops != [] && id in After(ops[..|ops| - 1]).all {
      GivenOut(ops[..|ops| - 1], id);
    }
  }

  /** No timer fires twice in a run, in one call or in two, nor after it was deleted. */
  lemma {:induction false} FiresOnce(ops: seq<Op>, answers: seq<Answer>, j: nat, k: nat, id: nat)
    requires Lawful(ops, answers)
    requires j < k < |ops| && answers[k].Fires?
    requires (answers[j].Fires? && id in answers[j].ids) || (ops[j] == Delete(id) && answers[j] == Deleted(true))
    ensures id !in answers[k].ids
  {
    AfterOne(ops, j);
    assert Says(After(ops[..j]), ops[j], answers[j]);
    GivenOut(ops[..j], id);
    Gone(ops, j + 1, k, id);
    assert Says(After(ops[..k]), ops[k], answers[k]);
  }

  /** A call that takes a timer with a callback deletes it or fires it. */
  lemma {:induction false} Taken(s: State, op: Op, a: Answer, id: nat)
    requires Says(s, op, a) && id in s.all && s.all[id].cb
    ensures id in Step(s, op).all ==> Step(s, op).all[id] == s.all[id]
    ensures id !in Step(s, op).all ==> (a == Deleted(true) && op == Delete(id)) || (a.Fires? && id in a.ids)
  {
  }

  /** A timer with a callback that was set after j calls, and after k no longer is, was
      taken by just one call in between: which deleted it or fired it. */
  lemma {:induction false} Accounted(ops: seq<Op>, answers: seq<Answer>, j: nat, k: nat, id: nat) returns (i: nat)
    requires Lawful(ops, answers)
    requires j <= k <= |ops| && id in After(ops[..j]).all && After(ops[..j]).all[id].cb && id !in After(ops[..k]).all
    ensures j <= i < k
    ensures (answers[i] == Deleted(true) && ops[i] == Delete(id)) || (answers[i].Fires? && id in answers[i].ids)
    decreases k - j
  {
    hide Says, Step, After;
    AfterOne(ops, j);
    Taken(After(ops[..j]), ops[j], answers[j], id);
    if id !in After(ops[..j + 1]).all {
      i := j;
    } else {
      i := Accounted(ops, answers, j + 1, k, id);
    }
  }

  /** A timer that is set stays so, for its time, until it is deleted or that time comes. */
  lemma {:induction false} StaysSet(ops: seq<Op>, j: nat, k: nat, id: nat)
    requires j <= k <= |ops| && id in After(ops[..j]).all
    requires forall i :: j <= i < k ==> ops[i] != Delete(id) && (ops[i].Expire? ==> ops[i].now < After(ops[..j]).all[id].expire)
    requires id <= After(ops[..j]).count
    ensures id in After(ops[..k]).all && After(ops[..k]).all[id] == After(ops[..j]).all[id] && id <= After(ops[..k]).count
  {
    if j < k {
      StaysSet(ops, j, k - 1, id);
      AfterOne(ops, k - 1);
    }
  }

  /** In any run a timer with a callback that is set and not deleted fires at the first call
      of Expire that comes when its time has come. */
  lemma {:induction false} FiresOnTime(ops: seq<Op>, answers: seq<Answer>, j: nat, k: nat, now: nat, expire: nat, id: nat)
    requires Lawful(ops, answers) && j < k < |ops|
    requires ops[j] == Add(now, expire, true) && answers[j] == Added(id)
    requires ops[k].Expire? && now + expire <= ops[k].now
    requires forall i :: j < i < k ==> ops[i] != Delete(id) && (ops[i].Expire? ==> ops[i].now < now + expire)
    ensures answers[k].Fires? && id in answers[k].ids
  {
    assert Says(After(ops[..j]), ops[j], answers[j]);
    AfterOne(ops, j);
    StaysSet(ops, j + 1, k, id);
    assert Says(After(ops[..k]), ops[k], answers[k]);
  }

  lemma {:induction false} SameWhileSet(ops: seq<Op>, j: nat, k: nat, id: nat)
    requires j <= k <= |ops| && id in After(ops[..j]).all && id in After(ops[..k]).all
    ensures After(ops[..k]).all[id] == After(ops[..j]).all[id]
  {
    hide After, Step;
    if j < k {
      GivenOut(ops[..j], id);
      CountGrows(ops, j, k - 1);
      AfterOne(ops, k - 1);
      SameStep(After(ops[..k - 1]), ops[k - 1], id);
      SameWhileSet(ops, j, k - 1, id);
    }
  }

  lemma {:induction false} SameStep(s: State, op: Op, id: nat)
    requires id in Step(s, op).all && id <= s.count
    ensures id in s.all && Step(s, op).all[id] == s.all[id]
  {
  }

  lemma {:induction false} CountGrows(ops: seq<Op>, j: nat, k: nat)
    requires j <= k <= |ops|
    ensures After(ops[..j]).count <= After(ops[..k]).count
  {
    if j < k {
      CountGrows(ops, j, k - 1);
      AfterOne(ops, k - 1);
    }
  }

  /** And no timer fires before its time. */
  lemma {:induction false} NeverEarly(ops: seq<Op>, answers: seq<Answer>, j: nat, k: nat, now: nat, expire: nat, cb: bool, id: nat)
    requires Lawful(ops, answers) && j < k < |ops|
    requires ops[j] == Add(now, expire, cb) && answers[j] == Added(id) && answers[k].Fires? && id in answers[k].ids
    ensures ops[k].Expire? && now + expire <= ops[k].now && cb
  {
    assert Says(After(ops[..j]), ops[j], answers[j]);
    AfterOne(ops, j);
    assert Says(After(ops[..k]), ops[k], answers[k]);
    SameWhileSet(ops, j + 1, k, id);
  }
}
