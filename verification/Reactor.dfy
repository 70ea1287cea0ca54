// reactor_thread2.c: the events of each descriptor in a doubly linked list, which the
// interest set that epoll keeps has to mirror.

module Reactors {
  import opened Basics

  const MAX_EPOLL_EVENTS: nat := 1024

  datatype Interest = In | Out

  datatype Callback = Accept | Recv | Send

  /** The events a callback is set for. */
  function Mask(cb: Callback): (m: set<Interest>)
    ensures m != {}
  {
    if cb == Send then {Out} else {In}
  }

  class Revent {
    const fd: nat
    const events: set<Interest>
    const callback: Callback
    var status: int             // 1 in the epoll set, 0 not
    var prev: Revent?
    var next: Revent?

    constructor Set(fd: nat, callback: Callback)
      ensures this.fd == fd && this.callback == callback && events == Mask(callback)
      ensures status == 0 && prev == null && next == null
    {
      this.fd, this.callback, events := fd, callback, Mask(callback);
      status, prev, next := 0, null, null;
    }
  }

  /** What epoll has for a descriptor. */
  datatype Registered = Registered(events: set<Interest>, ptr: Revent)

  ghost function At(list: seq<Revent>, i: int): Revent? {
    if 0 <= i < |list| then list[i] else null
  }

  /** Node i of the list is linked between these two. */
  ghost predicate Node(list: seq<Revent>, fd: nat, i: nat, before: int, after: int)
    requires i < |list|
    reads list[i]
  {
    && list[i].fd == fd && list[i].events == Mask(list[i].callback) && list[i].status == 1
    && list[i].prev == At(list, before) && list[i].next == At(list, after)
  }

  ghost predicate Inner(list: seq<Revent>, fd: nat, i: nat)
    requires i < |list|
    reads list[i]
  {
    Node(list, fd, i, i - 1, i + 1)
  }

  /** Node k is linked past node i. */
  ghost predicate Past(list: seq<Revent>, fd: nat, i: nat, k: nat)
    requires k < |list|
    reads list[k]
  {
    Node(list, fd, k, if k == i + 1 then i - 1 else k - 1, if k == i - 1 then i + 1 else k + 1)
  }

  /** The nodes are linked both ways in this order, and no others to them. */
  ghost predicate Chain(list: seq<Revent>, fd: nat)
    reads list
  {
    forall i :: 0 <= i < |list| ==> Inner(list, fd, i)
  }

  ghost predicate Distinct(list: seq<Revent>) {
    forall i, j :: 0 <= i < j < |list| ==> list[i] != list[j]
  }

  ghost function Nodes(list: seq<Revent>): set<Revent> {
    set x | x in list
  }

  ghost function Callbacks(list: seq<Revent>): (r: seq<Callback>)
    ensures |r| == |list| && forall i :: 0 <= i < |r| ==> r[i] == list[i].callback
  {
    seq(|list|, i requires 0 <= i < |list| => list[i].callback)
  }

  /** The events of a list taken together. */
  ghost function Union(cbs: seq<Callback>): (m: set<Interest>)
    ensures m == {} <==> cbs == []
    ensures forall e :: e in m <==> exists i :: 0 <= i < |cbs| && e in Mask(cbs[i])
  {
    if cbs == [] then {} else
      assert forall i :: 0 < i < |cbs| ==> cbs[i] == cbs[1..][i - 1];
      Mask(cbs[0]) + Union(cbs[1..])
  }

  /** Link ev in before the head. */
  method Push(ev: Revent, head: Revent?, ghost list: seq<Revent>)
    requires Chain(list, ev.fd) && Distinct(list) && head == At(list, 0)
    requires ev.status == 0 && ev.prev == null && ev.next == null && ev.events == Mask(ev.callback)
    modifies ev, Nodes(list)
    ensures Chain([ev] + list, ev.fd) && Distinct([ev] + list)
  {
    assert list != [] ==> Inner(list, ev.fd, 0);
    forall i | 0 <= i < |list|
      ensures list[i] != ev
    {
      assert Inner(list, ev.fd, i);
    }
    if head != null {
      head.prev := ev;
      ev.next := head;
      ev.prev := null;
    }
    ev.status := 1;
    forall i | 0 <= i < |list| + 1
      ensures Inner([ev] + list, ev.fd, i)
    {
      assert i > 0 ==> old(Inner(list, ev.fd, i - 1));
    }
  }

  /** The nodes but for node i are linked with each other past it. */
  ghost predicate LinkedPast(list: seq<Revent>, fd: nat, i: nat)
    reads list
  {
    forall k :: 0 <= k < |list| && k != i ==> Past(list, fd, i, k)
  }

  lemma {:induction false} PastChain(list: seq<Revent>, fd: nat, i: nat)
    requires i < |list| && LinkedPast(list, fd, i)
    ensures Chain(Without(list, i), fd)
  {
    var r := Without(list, i);
    forall k | 0 <= k < |r|
      ensures Inner(r, fd, k)
    {
      var j := if k < i then k else k + 1;
      assert Past(list, fd, i, j);
    }
  }

  lemma {:induction false} WithoutDistinct(list: seq<Revent>, i: nat)
    requires Distinct(list) && i < |list|
    ensures Distinct(Without(list, i)) && list[i] !in Without(list, i)
  {
  }

  /** Unlink ev, wherever it is. */
  method Unlink(ev: Revent, ghost list: seq<Revent>, ghost i: nat)
    requires Chain(list, ev.fd) && Distinct(list) && i < |list| && list[i] == ev
    modifies Nodes(list)
    ensures Chain(Without(list, i), ev.fd) && ev.status == 0
  {
    hide Without;
    assert Inner(list, ev.fd, i);
    assert i > 0 ==> Inner(list, ev.fd, i - 1);
    assert i + 1 < |list| ==> Inner(list, ev.fd, i + 1);
    if ev.prev != null {
      ev.prev.next := ev.next;
    }
    if ev.next != null {
      ev.next.prev := ev.prev;
    }
    ev.status := 0;
    forall k | 0 <= k < |list| && k != i
      ensures Past(list, ev.fd, i, k)
    {
      assert old(Inner(list, ev.fd, k));
    }
    PastChain(list, ev.fd, i);
  }

  /** The OR of the events of a list from one node on. */
  method Collect(ev: Revent?, ghost list: seq<Revent>, ghost k: nat, ghost fd: nat) returns (mask: set<Interest>)
    requires Chain(list, fd) && k <= |list| && ev == At(list, k)
    ensures mask == Union(Callbacks(list[k..]))
  {
    hide Union, Callbacks, Mask;
    mask := {};
    var e := ev;
    ghost var i, all := k, Union(Callbacks(list[k..]));
    while e != null
      invariant k <= i <= |list| && e == At(list, i)
      invariant mask + Union(Callbacks(list[i..])) == all
      decreases |list| - i
    {
      assert Inner(list, fd, i);
      UnionFrom(list, i, mask);
      mask := mask + e.events;
      e := e.next;
      i := i + 1;
    }
    NoUnion(list[i..]);
  }

  lemma {:induction false} NoUnion(list: seq<Revent>)
    requires list == []
    ensures Union(Callbacks(list)) == {}
  {
  }

  lemma {:induction false} UnionFrom(list: seq<Revent>, i: nat, mask: set<Interest>)
    requires i < |list|
    ensures mask + Mask(list[i].callback) + Union(Callbacks(list[i + 1..])) == mask + Union(Callbacks(list[i..]))
  {
    hide Union, Callbacks, Mask;
    UnionOne(list[i..]);
    assert list[i..][1..] == list[i + 1..];
  }

  lemma {:induction false} UnionOne(list: seq<Revent>)
    requires list != []
    ensures Union(Callbacks(list)) == Mask(list[0].callback) + Union(Callbacks(list[1..]))
  {
    assert Callbacks(list)[1..] == Callbacks(list[1..]);
  }

  /** The head and the interest set of one descriptor agree with its list. */
  ghost predicate Mirrored(list: seq<Revent>, head: Revent?, fd: nat, kernel: map<nat, Registered>) {
    && Distinct(list) && head == At(list, 0)
    && (fd in kernel <==> list != [])
    && (list != [] ==> kernel[fd] == Registered(Union(Callbacks(list)), list[0]))
  }

  ghost predicate AllMirrored(lists: seq<seq<Revent>>, heads: seq<Revent?>, kernel: map<nat, Registered>) {
    && |lists| == |heads| && (forall fd :: fd in kernel ==> fd < |lists|)
    && (forall fd :: 0 <= fd < |lists| ==> Mirrored(lists[fd], heads[fd], fd, kernel))
  }

  /** A descriptor's list, head and registration change together. */
  lemma {:induction false} MirroredOne(lists: seq<seq<Revent>>, heads: seq<Revent?>, kernel: map<nat, Registered>,
                                       fd: nat, list: seq<Revent>)
    requires AllMirrored(lists, heads, kernel) && fd < |lists| && Distinct(list)
    ensures AllMirrored(lists[fd := list], heads[fd := At(list, 0)],
      if list == [] then kernel - {fd} else kernel[fd := Registered(Union(Callbacks(list)), list[0])])
  {
  }

  lemma {:induction false} MirroredOnly(lists: seq<seq<Revent>>, heads: seq<Revent?>, kernel: map<nat, Registered>)
    requires AllMirrored(lists, heads, kernel)
    ensures |lists| == |heads| && forall fd :: fd in kernel ==> fd < |lists|
  {
  }

  lemma {:induction false} MirroredAt(lists: seq<seq<Revent>>, heads: seq<Revent?>, kernel: map<nat, Registered>, fd: nat)
    requires AllMirrored(lists, heads, kernel) && fd < |lists|
    ensures Distinct(lists[fd]) && heads[fd] == At(lists[fd], 0)
    ensures fd in kernel <==> lists[fd] != []
    ensures lists[fd] != [] ==> kernel[fd] == Registered(Union(Callbacks(lists[fd])), lists[fd][0])
  {
  }

  /** The callbacks of the events of every descriptor. */
  ghost function Table(lists: seq<seq<Revent>>): (r: seq<seq<Callback>>)
    ensures |r| == |lists| && forall fd :: 0 <= fd < |r| ==> r[fd] == Callbacks(lists[fd])
  {
    seq(|lists|, fd requires 0 <= fd < |lists| => Callbacks(lists[fd]))
  }

  lemma {:induction false} TableOne(lists: seq<seq<Revent>>, fd: nat, list: seq<Revent>)
    requires fd < |lists|
    ensures Table(lists[fd := list]) == Table(lists)[fd := Callbacks(list)]
  {
  }

  lemma {:induction false} CallbacksWithout(list: seq<Revent>, i: nat)
    requires i < |list|
    ensures Callbacks(Without(list, i)) == Without(Callbacks(list), i)
  {
  }

  lemma {:induction false} CallbacksPushed(ev: Revent, list: seq<Revent>)
    ensures Callbacks([ev] + list) == [ev.callback] + Callbacks(list)
  {
  }

  /** The first event for `what`, or how many there are. */
  ghost function FirstWith(cbs: seq<Callback>, what: Interest): (i: nat)
    ensures i <= |cbs| && (i < |cbs| ==> what in Mask(cbs[i]))
    ensures forall k :: 0 <= k < i ==> what !in Mask(cbs[k])
  {
    if cbs == [] || what in Mask(cbs[0]) then 0 else 1 + FirstWith(cbs[1..], what)
  }

  lemma {:induction false} FirstIs(cbs: seq<Callback>, what: Interest, i: nat)
    requires i <= |cbs| && (i < |cbs| ==> what in Mask(cbs[i])) && forall k :: 0 <= k < i ==> what !in Mask(cbs[k])
    ensures i == FirstWith(cbs, what)
  {
  }

  /** The lists of all other descriptors are the same. */
  ghost predicate Elsewhere(lists: seq<seq<Revent>>, lists': seq<seq<Revent>>, fds: set<nat>) {
    |lists'| == |lists| && forall g: nat :: g < |lists| && g !in fds ==> lists'[g] == lists[g]
  }

  /** The descriptors whose lists a report can change. */
  ghost function Touched(e: Event): set<nat> {
    {e.fd} + if e.accepted == None then {} else {e.accepted.value}
  }

  /** Just the accepted descriptors that have events are open. */
  ghost predicate OpenAre(open: set<nat>, listener: nat, table: seq<seq<Callback>>) {
    forall fd: nat :: fd in open <==> fd < |table| && fd != listener && table[fd] != []
  }

  /** What recv and send return: bytes, would block or a closed pipe, or another error. */
  datatype RecvResult = Data | Again | Gone
  datatype SendResult = Sent | Pipe | Failed

  ghost function Received(table: seq<seq<Callback>>, fd: nat, result: RecvResult): seq<seq<Callback>>
    requires fd < |table|
  {
    match result
    case Data => table[fd := [Send] + table[fd]]
    case Again => table
    case Gone => table[fd := []]
  }

  ghost function SentAt(table: seq<seq<Callback>>, fd: nat, i: nat, result: SendResult): seq<seq<Callback>>
    requires fd < |table| && i < |table[fd]|
  {
    if result == Pipe then table[fd := []] else table[fd := Without(table[fd], i)]
  }

  /** What epoll reports of a descriptor, and what the calls on it then return. */
  datatype Event = Ready(fd: nat, readable: bool, writable: bool,
                         accepted: Option<nat>, recv: RecvResult, send: SendResult)

  ghost function NoEvents(): (r: seq<seq<Callback>>)
    ensures |r| == MAX_EPOLL_EVENTS && forall fd :: 0 <= fd < |r| ==> r[fd] == []
  {
    seq(MAX_EPOLL_EVENTS, _ => [])
  }

  /** A descriptor that is accepted is a new one, of those there is room for. */
  predicate Accepts(e: Event, listener: nat, open: set<nat>) {
    e.accepted.Some? ==>
      e.accepted.value < MAX_EPOLL_EVENTS && e.accepted.value != listener && e.accepted.value !in open
  }

  ghost function AfterRead(table: seq<seq<Callback>>, e: Event): (r: seq<seq<Callback>>)
    requires e.fd < |table|
    requires e.accepted.Some? ==> e.accepted.value < |table|
    ensures |r| == |table|
  {
    var i := FirstWith(table[e.fd], In);
    if i == |table[e.fd]| then table
    else if table[e.fd][i] == Accept then
      if e.accepted == None then table else table[e.accepted.value := [Recv]]
    else Received(table, e.fd, e.recv)
  }

  ghost function AfterWrite(table: seq<seq<Callback>>, e: Event): (r: seq<seq<Callback>>)
    requires e.fd < |table|
    ensures |r| == |table|
  {
    var i := FirstWith(table[e.fd], Out);
    if i == |table[e.fd]| then table else SentAt(table, e.fd, i, e.send)
  }

  /** The events of every descriptor after a round. */
  ghost function Next(table: seq<seq<Callback>>, e: Event): (r: seq<seq<Callback>>)
    requires e.fd < |table|
    requires e.accepted.Some? ==> e.accepted.value < |table|
    ensures |r| == |table|
  {
    var t := if e.readable then AfterRead(table, e) else table;
    if e.writable then AfterWrite(t, e) else t
  }

  /** The events of an open descriptor: answers to send, and one that receives. */
  ghost predicate Shaped(cbs: seq<Callback>) {
    cbs == [] || (cbs[|cbs| - 1] == Recv && forall i :: 0 <= i < |cbs| - 1 ==> cbs[i] == Send)
  }

  ghost predicate AllShaped(table: seq<seq<Callback>>, listener: nat) {
    forall fd :: 0 <= fd < |table| ==> if fd == listener then table[fd] == [] || table[fd] == [Accept] else Shaped(table[fd])
  }

  class Reactor {
    const listener: nat
    const events: array<Revent?>
    var kernel: map<nat, Registered>
    var open: set<nat>               // the descriptors that were accepted and not closed
    ghost var lists: seq<seq<Revent>>
    ghost var nodes: set<Revent>     // the events that are linked

    /** Every list is linked as it should be. */
    ghost predicate Chained()
      reads `lists, `nodes, nodes
    {
      forall fd :: 0 <= fd < |lists| ==> Nodes(lists[fd]) <= nodes && Chain(lists[fd], fd)
    }

    ghost predicate Linked()
      reads `lists, `nodes, `kernel, events, nodes
    {
      && events.Length == |lists| == MAX_EPOLL_EVENTS && listener < MAX_EPOLL_EVENTS
      && Chained() && AllMirrored(lists, events[..], kernel)
    }

    lemma Apart(fd: nat)
      requires Chained() && fd < |lists|
      ensures Nodes(lists[fd]) <= nodes && Chain(lists[fd], fd)
      ensures forall g, k :: 0 <= g < |lists| && 0 <= k < |lists[g]| ==> lists[g][k].fd == g && lists[g][k].status == 1
    {
      forall g, k | 0 <= g < |lists| && 0 <= k < |lists[g]|
        ensures lists[g][k].fd == g && lists[g][k].status == 1
      {
        assert Inner(lists[g], g, k);
      }
    }

    method PushAt(fd: nat, ev: Revent, head: Revent?)
      requires Chained() && fd < |lists| && Distinct(lists[fd]) && head == At(lists[fd], 0)
      requires ev.fd == fd && ev.status == 0 && ev.prev == null && ev.next == null && ev.events == Mask(ev.callback)
      modifies `lists, `nodes, ev, nodes
      ensures Chained() && nodes == old(nodes) + {ev}
      ensures lists == old(lists)[fd := [ev] + old(lists)[fd]] && Distinct(lists[fd])
    {
      hide Chain, Distinct;
      Apart(fd);
      ghost var list := lists[fd];
      Push(ev, head, list);
      lists := lists[fd := [ev] + list];
      nodes := nodes + {ev};
      forall g | 0 <= g < |lists|
        ensures Nodes(lists[g]) <= nodes && Chain(lists[g], g)
      {
        assert old(Nodes(lists[g]) <= nodes && Chain(lists[g], g));
        assert g != fd ==> forall k :: 0 <= k < |lists[g]| ==> lists[g][k] !in Nodes(list) && lists[g][k] != ev;
      }
    }

    method UnlinkAt(fd: nat, ev: Revent, ghost i: nat)
      requires Chained() && fd < |lists| && Distinct(lists[fd]) && i < |lists[fd]| && lists[fd][i] == ev
      modifies `lists, `nodes, nodes
      ensures Chained() && nodes == old(nodes) - {ev} && ev.status == 0
      ensures lists == old(lists)[fd := Without(old(lists)[fd], i)] && Distinct(lists[fd])
    {
      hide Chain, Distinct, Without;
      Apart(fd);
      ghost var list := lists[fd];
      WithoutDistinct(list, i);
      Unlink(ev, list, i);
      lists := lists[fd := Without(list, i)];
      nodes := nodes - {ev};
      forall g | 0 <= g < |lists|
        ensures Nodes(lists[g]) <= nodes && Chain(lists[g], g)
      {
        assert old(Nodes(lists[g]) <= nodes && Chain(lists[g], g));
        assert g != fd ==> forall k :: 0 <= k < |lists[g]| ==> lists[g][k] !in Nodes(list) && lists[g][k] != ev;
      }
    }

    /** epoll_ctl with EPOLL_CTL_ADD: it succeeds, or the descriptor is there already. */
    method CtlAdd(fd: nat, mask: set<Interest>, ptr: Revent) returns (ok: bool)
      modifies `kernel
      ensures ok <==> fd !in old(kernel)
      ensures kernel == if ok then old(kernel)[fd := Registered(mask, ptr)] else old(kernel)
    {
      ok := fd !in kernel;
      if ok {
        kernel := kernel[fd := Registered(mask, ptr)];
      }
    }

    method ReventAdd(ev: Revent) returns (ret: int)
      requires Linked() && ev.fd < MAX_EPOLL_EVENTS
      requires ev.status == 0 ==> ev.prev == null && ev.next == null && ev.events == Mask(ev.callback)
      modifies `kernel, `lists, `nodes, events, ev, nodes
      ensures Linked() && ret == if old(ev.status) == 0 then 0 else -1
      ensures ret == 0 ==> nodes == old(nodes) + {ev} && lists == old(lists)[ev.fd := [ev] + old(lists)[ev.fd]]
      ensures ret != 0 ==> nodes == old(nodes) && lists == old(lists) && kernel == old(kernel)
    {
      hide Chain, Distinct, Union, Callbacks, Reactor.Chained, AllMirrored, Mirrored;
      if ev.status != 0 {
        return -1;
      }
      var fd := ev.fd;
      ghost var list := lists[fd];
      MirroredAt(lists, events[..], kernel, fd);
      PushAt(fd, ev, events[fd]);
      MirroredOne(old(lists), events[..], kernel, fd, [ev] + list);
      ghost var heads := events[..];
      events[fd] := ev;
      assert events[..] == heads[fd := ev];
      PushedUnion(ev, list);
      var ok := CtlAdd(fd, ev.events, ev);
      if !ok {
        Apart(fd);
        var mask := Collect(ev, lists[fd], 0, fd);
        assert lists[fd][0..] == lists[fd];
        kernel := kernel[fd := Registered(mask, ev)];
      }
      return 0;
    }

    method ReventDel(ev: Revent, ghost i: nat) returns (ret: int)
      requires Linked() && ev.fd < MAX_EPOLL_EVENTS
      requires ev.status == 1 ==> i < |lists[ev.fd]| && lists[ev.fd][i] == ev
      modifies `kernel, `lists, `nodes, events, nodes
      ensures Linked() && ret == if old(ev.status) == 1 then 0 else -1
      ensures ret == 0 ==> nodes == old(nodes) - {ev} && ev.status == 0
      ensures ret == 0 ==> i < |old(lists)[ev.fd]| && lists == old(lists)[ev.fd := Without(old(lists)[ev.fd], i)]
      ensures ret != 0 ==> nodes == old(nodes) && lists == old(lists) && kernel == old(kernel)
    {
      hide Chain, Distinct, Union, Callbacks, Reactor.Chained, AllMirrored, Mirrored, Without;
      Apart(ev.fd);
      if ev.status != 1 {
        return -1;
      }
      var fd := ev.fd;
      ghost var list, heads := lists[fd], events[..];
      MirroredAt(lists, heads, kernel, fd);
      HeadWithout(list, fd, i);
      if ev == events[fd] {
        events[fd] := ev.next;
      }
      UnlinkAt(fd, ev, i);
      MirroredOne(old(lists), heads, kernel, fd, lists[fd]);
      assert events[..] == heads[fd := At(lists[fd], 0)];
      Apart(fd);
      var mask := Collect(events[fd], lists[fd], 0, fd);
      assert lists[fd][0..] == lists[fd];
      MaskNone(lists[fd]);
      if mask != {} {
        kernel := kernel[fd := Registered(mask, events[fd])];
      } else {
        kernel := kernel - {fd};
      }
      return 0;
    }

    ghost predicate Valid()
      reads `lists, `nodes, `kernel, `open, events, nodes
    {
      Linked() && OpenAre(open, listener, Table(lists))
    }

    /** The first event of a descriptor that is set for `what`. */
    method Find(fd: nat, what: Interest) returns (ev: Revent?)
      requires Linked() && fd < MAX_EPOLL_EVENTS
      ensures ev == At(lists[fd], FirstWith(Callbacks(lists[fd]), what))
    {
      hide Union, AllMirrored, Mirrored, FirstWith, Mask;
      MirroredAt(lists, events[..], kernel, fd);
      Apart(fd);
      ghost var list := lists[fd];
      ghost var i := 0;
      ev := events[fd];
      while ev != null
        invariant i <= |list| && ev == At(list, i)
        invariant forall k :: 0 <= k < i ==> what !in Mask(Callbacks(list)[k])
        decreases |list| - i
      {
        assert Inner(list, fd, i);
        if what in ev.events {
          break;
        }
        ev := ev.next;
        i := i + 1;
      }
      FirstIs(Callbacks(list), what, i);
    }

    method AcceptCallback(accepted: Option<nat>) returns (ret: int)
      requires Valid()
      requires accepted.Some? ==> accepted.value < MAX_EPOLL_EVENTS && accepted.value != listener && accepted.value !in open
      modifies `kernel, `lists, `nodes, `open, events, nodes
      ensures Valid() && fresh(nodes - old(nodes))
      ensures Table(lists) == if accepted == None then Table(old(lists)) else Table(old(lists))[accepted.value := [Recv]]
      ensures Elsewhere(old(lists), lists, if accepted == None then {} else {accepted.value})
      ensures open == if accepted == None then old(open) else old(open) + {accepted.value}
    {
      hide Chain, Distinct, Union, Callbacks, Reactor.Chained, AllMirrored, Mirrored, Table;
      if accepted == None {
        return -1;
      }
      var fd := accepted.value;
      TableAt(lists, fd);
      open := open + {fd};
      var ev := new Revent.Set(fd, Recv);
      ghost var list := lists[fd];
      ret := ReventAdd(ev);
      TableOne(old(lists), fd, [ev] + list);
      CallbacksPushed(ev, list);
      OpenMore(old(open), listener, Table(old(lists)), fd);
      assert [Recv] + [] == [Recv];
      return fd;
    }

    lemma HeadAt(fd: nat)
      requires Linked() && fd < MAX_EPOLL_EVENTS
      ensures events[fd] == At(lists[fd], 0)
      ensures forall k :: 0 <= k < |lists[fd]| ==> lists[fd][k].fd == fd && lists[fd][k].status == 1
    {
      Apart(fd);
      MirroredAt(lists, events[..], kernel, fd);
    }

    /** Remove and free every event of a descriptor. */
    method RemoveAll(fd: nat)
      requires Linked() && fd < MAX_EPOLL_EVENTS
      modifies `kernel, `lists, `nodes, events, nodes
      ensures Linked() && nodes <= old(nodes)
      ensures Table(lists) == Table(old(lists))[fd := []] && events[fd] == null
      ensures Elsewhere(old(lists), lists, {fd})
    {
      hide Chain, Distinct, Callbacks, Reactor.Chained, AllMirrored, Mirrored, Table;
      HeadAt(fd);
      TableAt(lists, fd);
      var tmpev := events[fd];
      while tmpev != null
        invariant Linked() && nodes <= old(nodes)
        invariant tmpev == events[fd] == At(lists[fd], 0)
        invariant Table(lists) == Table(old(lists))[fd := Callbacks(lists[fd])]
        invariant Elsewhere(old(lists), lists, {fd})
        decreases |lists[fd]|
      {
        HeadAt(fd);
        ghost var before := lists;
        var _ := ReventDel(tmpev, 0);
        TableOne(before, fd, lists[fd]);
        HeadAt(fd);
        tmpev := events[fd];
      }
      NoCallbacks(lists[fd]);
    }

    method Close(fd: nat)
      modifies `open
      ensures open == old(open) - {fd}
    {
      open := open - {fd};
    }

    method RecvCallback(fd: nat, result: RecvResult)
      requires Valid() && fd < MAX_EPOLL_EVENTS && fd in open
      modifies `kernel, `lists, `nodes, `open, events, nodes
      ensures Valid() && fresh(nodes - old(nodes))
      ensures Table(lists) == Received(Table(old(lists)), fd, result)
      ensures Elsewhere(old(lists), lists, {fd})
      ensures |lists| == |old(lists)| == MAX_EPOLL_EVENTS
      ensures result == Data ==> Callbacks(lists[fd]) == [Send] + Callbacks(old(lists)[fd]) && open == old(open)
      ensures result == Again ==> lists == old(lists) && kernel == old(kernel) && open == old(open)
      ensures result == Gone ==> lists[fd] == [] && events[fd] == null && fd !in kernel && open == old(open) - {fd}
    {
      hide Chain, Distinct, Callbacks, Reactor.Chained, AllMirrored, Mirrored, Table, Union;
      TableAt(lists, fd);
      if result == Again {
        return;
      }
      if result == Gone {
        OpenLess(open, listener, Table(lists), fd);
        RemoveAll(fd);
        Close(fd);
        TableAt(lists, fd);
        MirroredAt(lists, events[..], kernel, fd);
      } else {
        OpenSame(open, listener, Table(lists), fd, [Send] + Callbacks(lists[fd]));
        var ev := new Revent.Set(fd, Send);
        ghost var list := lists[fd];
        var _ := ReventAdd(ev);
        TableOne(old(lists), fd, [ev] + list);
        CallbacksPushed(ev, list);
      }
    }

    method SendCallback(fd: nat, ev: Revent, ghost i: nat, result: SendResult)
      requires Valid() && fd < MAX_EPOLL_EVENTS && fd in open && i < |lists[fd]| && lists[fd][i] == ev
      modifies `kernel, `lists, `nodes, `open, events, nodes
      ensures Valid() && nodes <= old(nodes)
      ensures Table(lists) == SentAt(Table(old(lists)), fd, i, result)
      ensures Elsewhere(old(lists), lists, {fd})
      ensures |lists| == |old(lists)| == MAX_EPOLL_EVENTS
      ensures result == Sent || result == Failed ==> lists[fd] == Without(old(lists)[fd], i)
      ensures result == Pipe ==> lists[fd] == []
      ensures open == if lists[fd] == [] then old(open) - {fd} else old(open)
    {
      hide Chain, Distinct, Callbacks, Reactor.Chained, AllMirrored, Mirrored, Table;
      TableAt(lists, fd);
      HeadAt(fd);
      if result == Pipe {
        RemoveAll(fd);
      } else {
        var _ := ReventDel(ev, i);
        TableOne(old(lists), fd, lists[fd]);
        CallbacksWithout(old(lists)[fd], i);
      }
      HeadAt(fd);
      TableAt(lists, fd);
      OpenLess(open, listener, Table(old(lists)), fd);
      OpenSame(open, listener, Table(old(lists)), fd, Callbacks(lists[fd]));
      if events[fd] == null {
        Close(fd);
      }
    }

    constructor (listener: nat)
      requires listener < MAX_EPOLL_EVENTS
      ensures Valid() && this.listener == listener && fresh(events) && nodes == {}
      ensures Table(lists) == NoEvents()
    {
      this.listener := listener;
      events := new Revent?[MAX_EPOLL_EVENTS](_ => null);
      kernel, open, nodes := map[], {}, {};
      lists := seq(MAX_EPOLL_EVENTS, _ => []);
    }

    /** The listening descriptor has one event, whose callback accepts. */
    method AddListener()
      requires Valid() && Table(lists)[listener] == []
      modifies `kernel, `lists, `nodes, events, nodes
      ensures Valid() && fresh(nodes - old(nodes))
      ensures Table(lists) == Table(old(lists))[listener := [Accept]]
    {
      hide Chain, Distinct, Union, Callbacks, Reactor.Chained, AllMirrored, Mirrored, Table;
      TableAt(lists, listener);
      var ev := new Revent.Set(listener, Accept);
      ghost var list := lists[listener];
      var _ := ReventAdd(ev);
      TableOne(old(lists), listener, [ev] + list);
      CallbacksPushed(ev, list);
      assert [Accept] + [] == [Accept];
    }

    method Readable(fd: nat, e: Event)
      requires Valid() && fd == e.fd < MAX_EPOLL_EVENTS
      requires AllShaped(Table(lists), listener) && Accepts(e, listener, open)
      modifies `kernel, `lists, `nodes, `open, events, nodes
      ensures Valid() && fresh(nodes - old(nodes))
      ensures Table(lists) == AfterRead(Table(old(lists)), e) && Elsewhere(old(lists), lists, Touched(e))
    {
      hide Chain, Distinct, Union, Callbacks, Reactor.Chained, AllMirrored, Mirrored, Table, FirstWith, AllShaped;
      TableAt(lists, fd);
      HeadAt(fd);
      ReadShaped(Table(lists), listener, fd);
      var ev := Find(fd, In);
      if ev != null {
        if ev.callback == Accept {
          var _ := AcceptCallback(e.accepted);
        } else {
          RecvCallback(fd, e.recv);
        }
      }
    }

    method Writable(fd: nat, e: Event)
      requires Valid() && fd == e.fd < MAX_EPOLL_EVENTS && AllShaped(Table(lists), listener)
      modifies `kernel, `lists, `nodes, `open, events, nodes
      ensures Valid() && fresh(nodes - old(nodes))
      ensures Table(lists) == AfterWrite(Table(old(lists)), e) && Elsewhere(old(lists), lists, Touched(e))
    {
      hide Chain, Distinct, Union, Callbacks, Reactor.Chained, AllMirrored, Mirrored, Table, FirstWith, AllShaped;
      TableAt(lists, fd);
      HeadAt(fd);
      WriteShaped(Table(lists), listener, fd);
      var ev := Find(fd, Out);
      if ev != null {
        SendCallback(fd, ev, FirstWith(Callbacks(lists[fd]), Out), e.send);
      }
    }

    /** A round of the loop of reactor_run: what epoll reports, with the pointer it has,
        which has to be the live head of its descriptor's list. */
    method Ready(ptr: Revent, e: Event)
      requires Valid() && e.fd < MAX_EPOLL_EVENTS && ptr == At(lists[e.fd], 0)
      requires AllShaped(Table(lists), listener) && Accepts(e, listener, open)
      modifies `kernel, `lists, `nodes, `open, events, nodes
      ensures Valid() && fresh(nodes - old(nodes)) && AllShaped(Table(lists), listener)
      ensures Table(lists) == Next(Table(old(lists)), e) && Elsewhere(old(lists), lists, Touched(e))
    {
      hide Chain, Distinct, Union, Callbacks, Reactor.Chained, AllMirrored, Mirrored, Table, FirstWith, AllShaped,
        AfterRead, AfterWrite, OpenAre, Touched;
      HeadAt(e.fd);
      TableAt(lists, e.fd);
      AcceptsNew(Table(lists), listener, open, e);
      ReadKeeps(Table(lists), listener, e);
      var fd := ptr.fd;
      if e.readable {
        Readable(fd, e);
      }
      WriteKeeps(Table(lists), listener, e);
      if e.writable {
        Writable(fd, e);
      }
    }

    /** What epoll_wait returned: for distinct descriptors it has, the pointers it had then.
        Every one of them is still the live head of its list when its turn comes. */
    method HandleBatch(batch: seq<Event>)
      requires Valid() && AllShaped(Table(lists), listener) && Reported(batch, kernel)
      modifies `kernel, `lists, `nodes, `open, events, nodes
      ensures Valid() && fresh(nodes - old(nodes)) && AllShaped(Table(lists), listener)
      ensures Table(lists) == AfterBatch(Table(old(lists)), listener, batch)
    {
      hide Chain, Distinct, Union, Callbacks, Reactor.Chained, AllMirrored, Mirrored, Table, AllShaped, Next, AfterBatch, OpenAre;
      var captured := kernel;
      CapturedHeads(batch);
      NothingHandled(Table(lists), listener, batch);
      for i := 0 to |batch|
        invariant Valid() && fresh(nodes - old(nodes)) && AllShaped(Table(lists), listener)
        invariant Table(lists) == AfterBatch(Table(old(lists)), listener, batch[..i])
        invariant forall j :: i <= j < |batch| ==> batch[j].fd < MAX_EPOLL_EVENTS && lists[batch[j].fd] != []
        invariant forall j :: i <= j < |batch| ==> lists[batch[j].fd][0] == captured[batch[j].fd].ptr
      {
        var e := if Accepts(batch[i], listener, open) then batch[i] else batch[i].(accepted := None);
        HandledOne(Table(old(lists)), listener, batch, i);
        AcceptsNew(Table(lists), listener, open, batch[i]);
        OpenLists(e);
        Ready(captured[e.fd].ptr, e);
      }
      assert batch[..|batch|] == batch;
    }

    /** The pointers epoll has are the heads of the lists. */
    lemma CapturedHeads(batch: seq<Event>)
      requires Linked() && Reported(batch, kernel)
      ensures forall j :: 0 <= j < |batch| ==>
        batch[j].fd < MAX_EPOLL_EVENTS && lists[batch[j].fd] != [] && lists[batch[j].fd][0] == kernel[batch[j].fd].ptr
    {
      MirroredOnly(lists, events[..], kernel);
      forall j | 0 <= j < |batch|
        ensures lists[batch[j].fd] != [] && lists[batch[j].fd][0] == kernel[batch[j].fd].ptr
      {
        MirroredAt(lists, events[..], kernel, batch[j].fd);
      }
    }

    /** A descriptor that is accepted has no list yet. */
    lemma OpenLists(e: Event)
      requires Valid() && Accepts(e, listener, open)
      ensures e.accepted.Some? ==> e.accepted.value < |lists| && lists[e.accepted.value] == []
    {
      hide Chain, Distinct, Union, Reactor.Chained, AllMirrored, Mirrored;
    }
  }

  /** The descriptors of one epoll_wait: distinct ones, that epoll has. */
  predicate Reported(batch: seq<Event>, kernel: map<nat, Registered>) {
    && (forall i :: 0 <= i < |batch| ==> batch[i].fd in kernel)
    && (forall i, j :: 0 <= i < j < |batch| ==> batch[i].fd != batch[j].fd)
  }

  /** One report on the table; a descriptor in use cannot be accepted. */
  ghost function Handled(table: seq<seq<Callback>>, listener: nat, e: Event): (r: seq<seq<Callback>>)
    ensures |r| == |table|
  {
    if e.fd >= |table| then table
    else Next(table, if New(table, listener, e.accepted) then e else e.(accepted := None))
  }

  ghost function AfterBatch(table: seq<seq<Callback>>, listener: nat, batch: seq<Event>): (r: seq<seq<Callback>>)
    ensures |r| == |table|
  {
    if batch == [] then table
    else Handled(AfterBatch(table, listener, batch[..|batch| - 1]), listener, batch[|batch| - 1])
  }

  lemma {:induction false} NothingHandled(table: seq<seq<Callback>>, listener: nat, batch: seq<Event>)
    ensures AfterBatch(table, listener, batch[..0]) == table
  {
  }

  lemma {:induction false} HandledOne(table: seq<seq<Callback>>, listener: nat, batch: seq<Event>, i: nat)
    requires i < |batch|
    ensures AfterBatch(table, listener, batch[..i + 1]) == Handled(AfterBatch(table, listener, batch[..i]), listener, batch[i])
  {
    assert batch[..i + 1][..i] == batch[..i];
  }

  /** The descriptor accepted is not the listener, and has no events. */
  ghost predicate New(table: seq<seq<Callback>>, listener: nat, accepted: Option<nat>) {
    accepted.Some? ==> accepted.value < |table| && accepted.value != listener && table[accepted.value] == []
  }

  lemma {:induction false} AcceptsNew(table: seq<seq<Callback>>, listener: nat, open: set<nat>, e: Event)
    requires OpenAre(open, listener, table) && |table| == MAX_EPOLL_EVENTS
    ensures Accepts(e, listener, open) <==> New(table, listener, e.accepted)
  {
  }

  /** A round keeps the shape of the lists: one descriptor's changes, or one is accepted. */
  lemma {:induction false} ReadKeeps(table: seq<seq<Callback>>, listener: nat, e: Event)
    requires AllShaped(table, listener) && e.fd < |table| && New(table, listener, e.accepted)
    ensures AllShaped(AfterRead(table, e), listener)
  {
  }

  lemma {:induction false} WriteKeeps(table: seq<seq<Callback>>, listener: nat, e: Event)
    requires AllShaped(table, listener) && e.fd < |table|
    ensures AllShaped(AfterWrite(table, e), listener)
  {
  }

  /** Only the listener accepts, and another descriptor that is read from is open. */
  lemma {:induction false} ReadShaped(table: seq<seq<Callback>>, listener: nat, fd: nat)
    requires AllShaped(table, listener) && fd < |table|
    ensures var i := FirstWith(table[fd], In);
      i < |table[fd]| && table[fd][i] != Accept ==> fd != listener
  {
  }

  lemma {:induction false} WriteShaped(table: seq<seq<Callback>>, listener: nat, fd: nat)
    requires AllShaped(table, listener) && fd < |table|
    ensures FirstWith(table[fd], Out) < |table[fd]| ==> fd != listener
  {
  }

  lemma {:induction false} NoCallbacks(list: seq<Revent>)
    ensures Callbacks(list) == [] <==> list == []
  {
  }

  lemma {:induction false} OpenLess(open: set<nat>, listener: nat, table: seq<seq<Callback>>, fd: nat)
    requires OpenAre(open, listener, table) && fd < |table|
    ensures OpenAre(open - {fd}, listener, table[fd := []])
  {
  }

  lemma {:induction false} OpenSame(open: set<nat>, listener: nat, table: seq<seq<Callback>>, fd: nat, cbs: seq<Callback>)
    requires OpenAre(open, listener, table) && fd < |table| && fd in open
    ensures cbs != [] ==> OpenAre(open, listener, table[fd := cbs])
  {
  }

  lemma {:induction false} TableAt(lists: seq<seq<Revent>>, fd: nat)
    requires fd < |lists|
    ensures |Table(lists)| == |lists| && Table(lists)[fd] == Callbacks(lists[fd])
    ensures lists[fd] == [] <==> Callbacks(lists[fd]) == []
  {
  }

  lemma {:induction false} OpenMore(open: set<nat>, listener: nat, table: seq<seq<Callback>>, fd: nat)
    requires OpenAre(open, listener, table) && fd < |table| && fd != listener && fd !in open
    ensures table[fd] == [] && OpenAre(open + {fd}, listener, table[fd := [Recv]])
  {
  }

  lemma {:induction false} PushedUnion(ev: Revent, list: seq<Revent>)
    ensures list == [] ==> Union(Callbacks([ev] + list)) == Mask(ev.callback)
    ensures At([ev] + list, 0) == ev
  {
  }

  lemma {:induction false} MaskNone(list: seq<Revent>)
    ensures Union(Callbacks(list)) == {} <==> list == []
  {
  }

  /** What the head is when node i is gone. */
  lemma {:induction false} HeadWithout(list: seq<Revent>, fd: nat, i: nat)
    requires Chain(list, fd) && Distinct(list) && i < |list|
    ensures i == 0 ==> list[0].next == At(Without(list, 0), 0)
    ensures i > 0 ==> list[i] != list[0] && At(Without(list, i), 0) == list[0]
  {
    assert Inner(list, fd, 0);
  }
}
