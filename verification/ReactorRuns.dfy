// Whole runs of the reactor, against a table of the events of each descriptor.

module ReactorRuns {
  import opened Basics
  import opened Reactors

  /** What one epoll_wait can report: distinct descriptors that are registered. */
  ghost predicate Possible(table: seq<seq<Callback>>, batch: seq<Event>) {
    && (forall i :: 0 <= i < |batch| ==> batch[i].fd < |table| && table[batch[i].fd] != [])
    && (forall i, j :: 0 <= i < j < |batch| ==> batch[i].fd != batch[j].fd)
  }

  ghost function Step(table: seq<seq<Callback>>, listener: nat, batch: seq<Event>): (r: seq<seq<Callback>>)
    ensures |r| == |table|
  {
    if Possible(table, batch) then AfterBatch(table, listener, batch) else table
  }

  /** The events of every descriptor after the batches, from those of the listener. */
  ghost function After(listener: nat, batches: seq<seq<Event>>): (r: seq<seq<Callback>>)
    requires listener < MAX_EPOLL_EVENTS
    ensures |r| == 1024
  {
    if batches == [] then NoEvents()[listener := [Accept]]
    else Step(After(listener, batches[..|batches| - 1]), listener, batches[|batches| - 1])
  }

  lemma {:induction false} AfterOne(listener: nat, batches: seq<seq<Event>>, k: nat)
    requires listener < MAX_EPOLL_EVENTS && k < |batches|
    ensures After(listener, batches[..k + 1]) == Step(After(listener, batches[..k]), listener, batches[k])
  {
    assert batches[..k + 1][..k] == batches[..k];
  }

  /** What epoll has is the OR of the events in the table, for the descriptors with any. */
  ghost predicate Interests(masks: map<nat, set<Interest>>, table: seq<seq<Callback>>) {
    && (forall fd: nat :: fd in masks <==> fd < |table| && table[fd] != [])
    && (forall fd: nat :: fd in masks && fd < |table| ==> masks[fd] == Union(table[fd]))
  }

  method Masks(r: Reactor) returns (masks: map<nat, set<Interest>>)
    requires r.Linked()
    ensures Interests(masks, Table(r.lists))
  {
    hide Chain, Distinct, Union, Reactor.Chained, AllMirrored, Mirrored;
    MirroredOnly(r.lists, r.events[..], r.kernel);
    masks := map fd | fd in r.kernel :: r.kernel[fd].events;
    forall fd: nat | fd < |r.lists|
      ensures fd in r.kernel <==> r.lists[fd] != []
      ensures fd in r.kernel ==> r.kernel[fd].events == Union(Callbacks(r.lists[fd]))
    {
      MirroredAt(r.lists, r.events[..], r.kernel, fd);
    }
  }

  /** What the reactor has registered is what the table can report. */
  lemma Reportable(r: Reactor, batch: seq<Event>)
    requires r.Linked()
    ensures Reported(batch, r.kernel) <==> Possible(Table(r.lists), batch)
  {
    hide Chain, Distinct, Union, Reactor.Chained, AllMirrored, Mirrored;
    MirroredOnly(r.lists, r.events[..], r.kernel);
    forall fd: nat | fd < |r.lists|
      ensures fd in r.kernel <==> r.lists[fd] != []
    {
      MirroredAt(r.lists, r.events[..], r.kernel, fd);
    }
  }

  /** Over any reports of any calls of epoll_wait, of which impossible ones are left out,
      the interest set is that of the lists, and the open descriptors are those with events. */
  method Run(listener: nat, batches: seq<seq<Event>>) returns (masks: map<nat, set<Interest>>, open: set<nat>)
    requires listener < MAX_EPOLL_EVENTS
    ensures Interests(masks, After(listener, batches))
    ensures OpenAre(open, listener, After(listener, batches))
  {
    hide Chain, Distinct, Union, Reactor.Chained, AllMirrored, Mirrored, AllShaped, AfterBatch, After, Reported, Possible;
    var r := new Reactor(listener);
    AfterNone(listener, batches);
    r.AddListener();
    for i := 0 to |batches|
      invariant r.Valid() && r.listener == listener && fresh(r) && fresh(r.events) && fresh(r.nodes)
      invariant Table(r.lists) == After(listener, batches[..i]) && AllShaped(Table(r.lists), listener)
    {
      AfterOne(listener, batches, i);
      Reportable(r, batches[i]);
      if Reported(batches[i], r.kernel) {
        r.HandleBatch(batches[i]);
      }
    }
    assert batches[..|batches|] == batches;
    masks := Masks(r);
    open := r.open;
  }

  lemma {:induction false} AfterNone(listener: nat, batches: seq<seq<Event>>)
    requires listener < MAX_EPOLL_EVENTS
    ensures After(listener, batches[..0]) == NoEvents()[listener := [Accept]]
    ensures AllShaped(After(listener, batches[..0]), listener)
  {
  }

  lemma {:induction false} HandledShaped(table: seq<seq<Callback>>, listener: nat, e: Event)
    requires AllShaped(table, listener)
    ensures AllShaped(Handled(table, listener, e), listener)
  {
    hide AllShaped, AfterRead, AfterWrite;
    if e.fd < |table| {
      var e' := if New(table, listener, e.accepted) then e else e.(accepted := None);
      ReadKeeps(table, listener, e');
      WriteKeeps(if e'.readable then AfterRead(table, e') else table, listener, e');
    }
  }

  lemma {:induction false} BatchShaped(table: seq<seq<Callback>>, listener: nat, batch: seq<Event>)
    requires AllShaped(table, listener)
    ensures AllShaped(AfterBatch(table, listener, batch), listener)
  {
    hide AllShaped, Handled;
    if batch != [] {
      BatchShaped(table, listener, batch[..|batch| - 1]);
      HandledShaped(AfterBatch(table, listener, batch[..|batch| - 1]), listener, batch[|batch| - 1]);
    }
  }

  lemma {:induction false} AfterShaped(listener: nat, batches: seq<seq<Event>>)
    requires listener < MAX_EPOLL_EVENTS
    ensures AllShaped(After(listener, batches), listener)
  {
    hide AllShaped, AfterBatch, Possible;
    if batches == [] {
      AfterNone(listener, batches);
      assert batches[..0] == batches;
    } else {
      AfterShaped(listener, batches[..|batches| - 1]);
      BatchShaped(After(listener, batches[..|batches| - 1]), listener, batches[|batches| - 1]);
    }
  }

  /** In any run an open descriptor has just one event that receives, after all those that
      send; epoll has it for reading, and for writing just when an answer waits. */
  lemma {:induction false} ClientsAreRead(listener: nat, batches: seq<seq<Event>>, masks: map<nat, set<Interest>>, open: set<nat>, fd: nat)
    requires listener < MAX_EPOLL_EVENTS && fd in open
    requires Interests(masks, After(listener, batches)) && OpenAre(open, listener, After(listener, batches))
    ensures Shaped(After(listener, batches)[fd]) && fd in masks && In in masks[fd]
    ensures Out in masks[fd] <==> Send in After(listener, batches)[fd]
  {
    hide After, Interests, OpenAre, AllShaped, Union;
    AfterShaped(listener, batches);
    AtOpen(After(listener, batches), listener, masks, open, fd);
    ShapedUnion(After(listener, batches)[fd]);
  }

  lemma {:induction false} AtOpen(table: seq<seq<Callback>>, listener: nat, masks: map<nat, set<Interest>>, open: set<nat>, fd: nat)
    requires Interests(masks, table) && OpenAre(open, listener, table) && AllShaped(table, listener) && fd in open
    ensures fd < |table| && table[fd] != [] && Shaped(table[fd]) && fd in masks && masks[fd] == Union(table[fd])
  {
  }

  lemma {:induction false} ShapedUnion(cbs: seq<Callback>)
    requires Shaped(cbs) && cbs != []
    ensures In in Union(cbs) && (Out in Union(cbs) <==> Send in cbs)
  {
    assert In in Mask(cbs[|cbs| - 1]);
  }

  // What a report does.

  /** The reports on other descriptors, and what is accepted meanwhile, leave a list that
      has events as it is. */
  lemma {:induction false} OthersStay(table: seq<seq<Callback>>, listener: nat, batch: seq<Event>, from: nat, fd: nat)
    requires from <= |batch| && fd < |table| && AfterBatch(table, listener, batch[..from])[fd] != []
    requires forall i :: from <= i < |batch| ==> batch[i].fd != fd
    ensures AfterBatch(table, listener, batch)[fd] == AfterBatch(table, listener, batch[..from])[fd]
    decreases |batch| - from
  {
    hide AfterBatch, Next;
    if from == |batch| {
      assert batch[..from] == batch;
    } else {
      var n := |batch| - 1;
      assert batch[..n][..from] == batch[..from] && batch[..n + 1] == batch;
      OthersStay(table, listener, batch[..n], from, fd);
      HandledOne(table, listener, batch, n);
      OtherStays(AfterBatch(table, listener, batch[..n]), listener, batch[n], fd);
    }
  }

  lemma {:induction false} OtherStays(table: seq<seq<Callback>>, listener: nat, e: Event, fd: nat)
    requires fd < |table| && table[fd] != [] && e.fd != fd
    ensures Handled(table, listener, e)[fd] == table[fd]
  {
  }

  lemma {:induction false} ReadOn(table: seq<seq<Callback>>, e: Event)
    requires e.fd < |table| && Shaped(table[e.fd]) && table[e.fd] != []
    requires e.accepted.Some? ==> e.accepted.value < |table|
    ensures var was, now := table[e.fd], AfterRead(table, e)[e.fd];
            && Shaped(now) && (e.recv == Gone <==> now == [])
            && (e.recv == Data ==> |now| == |was| + 1) && (e.recv == Again ==> now == was)
  {
    hide FirstWith;
    var was := table[e.fd];
    FirstIs(was, In, |was| - 1);
  }

  lemma {:induction false} WriteOn(table: seq<seq<Callback>>, e: Event)
    requires e.fd < |table| && Shaped(table[e.fd])
    ensures var was, now := table[e.fd], AfterWrite(table, e)[e.fd];
            && Shaped(now)
            && (|was| <= 1 ==> now == was)
            && (|was| > 1 ==> if e.send == Pipe then now == [] else |now| == |was| - 1)
  {
    hide FirstWith;
    var was := table[e.fd];
    FirstIs(was, Out, if |was| > 1 then 0 else |was|);
  }

  /** What a report does to the list of an open descriptor. */
  lemma {:induction false} ReportOn(table: seq<seq<Callback>>, listener: nat, e: Event)
    requires e.fd < |table| && e.fd != listener && Shaped(table[e.fd]) && table[e.fd] != []
    ensures var now := Handled(table, listener, e)[e.fd];
            var waits := |table[e.fd]| - 1 + if e.readable && e.recv == Data then 1 else 0;
            && Shaped(now)
            && (if e.readable && e.recv == Gone then now == []
                else if e.writable && waits > 0 then (if e.send == Pipe then now == [] else |now| == waits)
                else |now| == waits + 1)
  {
    hide Shaped, AfterRead, AfterWrite;
    var e' := if New(table, listener, e.accepted) then e else e.(accepted := None);
    ReadOn(table, e');
    WriteOn(if e'.readable then AfterRead(table, e') else table, e');
  }

  /** In any run, what the report on an open descriptor does when its turn in the batch
      comes: an answer is queued if and only if bytes came, nothing changes if recv would
      block, and everything goes if the peer is gone; one answer goes out, or fails, or
      finds the pipe closed, in which case everything goes. What is left then stays for the
      rest of the batch. */
  lemma {:induction false} ReportDone(listener: nat, batches: seq<seq<Event>>, batch: seq<Event>, j: nat)
    requires listener < MAX_EPOLL_EVENTS && Possible(After(listener, batches), batch)
    requires j < |batch| && batch[j].fd != listener
    ensures var table, e := After(listener, batches), batch[j];
            var was, now := table[e.fd], AfterBatch(table, listener, batch[..j + 1])[e.fd];
            var waits := |was| - 1 + if e.readable && e.recv == Data then 1 else 0;
            && was != [] && Shaped(was) && AfterBatch(table, listener, batch[..j])[e.fd] == was && Shaped(now)
            && (if e.readable && e.recv == Gone then now == []
                else if e.writable && waits > 0 then (if e.send == Pipe then now == [] else |now| == waits)
                else |now| == waits + 1)
            && (now != [] ==> After(listener, batches + [batch])[e.fd] == now)
  {
    hide After, AfterBatch, AllShaped, Handled, Shaped;
    var table, e := After(listener, batches), batch[j];
    AfterShaped(listener, batches);
    OneShaped(table, listener, e.fd);
    NothingHandled(table, listener, batch);
    assert batch[..j][..0] == batch[..0];
    OthersStay(table, listener, batch[..j], 0, e.fd);
    HandledOne(table, listener, batch, j);
    BatchShaped(table, listener, batch[..j]);
    ReportOn(AfterBatch(table, listener, batch[..j]), listener, e);
    if AfterBatch(table, listener, batch[..j + 1])[e.fd] != [] {
      OthersStay(table, listener, batch, j + 1, e.fd);
    }
    AfterMore(listener, batches, batch);
  }

  lemma {:induction false} OneShaped(table: seq<seq<Callback>>, listener: nat, fd: nat)
    requires AllShaped(table, listener) && fd < |table| && fd != listener
    ensures Shaped(table[fd])
  {
  }

  lemma {:induction false} AfterMore(listener: nat, batches: seq<seq<Event>>, batch: seq<Event>)
    requires listener < MAX_EPOLL_EVENTS && Possible(After(listener, batches), batch)
    ensures After(listener, batches + [batch]) == AfterBatch(After(listener, batches), listener, batch)
  {
    hide AfterBatch, Possible;
    AfterOne(listener, batches + [batch], |batches|);
    assert (batches + [batch])[..|batches|] == batches && (batches + [batch])[..|batches| + 1] == batches + [batch];
  }

  /** In any run, a client that the listener's report accepts is read from, and is so for
      the rest of the batch. */
  lemma {:induction false} AcceptDone(listener: nat, batches: seq<seq<Event>>, batch: seq<Event>, j: nat, client: nat)
    requires listener < MAX_EPOLL_EVENTS && Possible(After(listener, batches), batch)
    requires j < |batch| && batch[j].fd == listener && batch[j].readable && batch[j].accepted == Some(client)
    requires New(AfterBatch(After(listener, batches), listener, batch[..j]), listener, Some(client))
    ensures client < MAX_EPOLL_EVENTS && After(listener, batches + [batch])[client] == [Recv]
  {
    hide After, AfterBatch, AllShaped, Handled, Union;
    var table := After(listener, batches);
    AfterShaped(listener, batches);
    ListenerAccepts(table, listener);
    NothingHandled(table, listener, batch);
    assert batch[..j][..0] == batch[..0];
    OthersStay(table, listener, batch[..j], 0, listener);
    forall i | j < i < |batch|
      ensures batch[i].fd != client
    {
      if batch[i].fd == client { OthersStay(table, listener, batch[..j], 0, client); }
    }
    AcceptOn(AfterBatch(table, listener, batch[..j]), listener, batch[j], client);
    HandledOne(table, listener, batch, j);
    OthersStay(table, listener, batch, j + 1, client);
    AfterMore(listener, batches, batch);
  }

  lemma {:induction false} ListenerAccepts(table: seq<seq<Callback>>, listener: nat)
    requires AllShaped(table, listener) && listener < |table| && table[listener] != []
    ensures table[listener] == [Accept]
  {
  }

  lemma {:induction false} AcceptOn(table: seq<seq<Callback>>, listener: nat, e: Event, client: nat)
    requires e.fd == listener < |table| && table[listener] == [Accept] && e.readable
    requires e.accepted == Some(client) && New(table, listener, e.accepted)
    ensures Handled(table, listener, e)[client] == [Recv]
  {
    hide FirstWith;
    FirstIs([Accept], In, 0);
    FirstIs([Accept], Out, 1);
  }
}
