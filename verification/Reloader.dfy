// reloader.py: reloading a module and the modules it depends on. A module object is
// known by its name.

module Reloaders {
  import opened Basics

  type Name = string

  type Graph = map<Name, seq<Name>>

  /** The dependency list of a module. */
  function Entry(deps: Graph, x: Name): seq<Name> {
    if x in deps then deps[x] else []
  }

  /** The imports that are recorded: those of modules with a file. */
  function Keep(imports: seq<Name>, files: set<Name>): (r: seq<Name>)
    ensures forall y :: y in r <==> y in imports && y in files
  {
    if imports == [] then [] else
      var rest := Keep(imports[..|imports| - 1], files);
      var last := imports[|imports| - 1];
      assert imports == imports[..|imports| - 1] + [last];
      if last in files then rest + [last] else rest
  }

  lemma {:induction false} KeepNone(imports: seq<Name>, files: set<Name>)
    ensures Keep(imports[..0], files) == []
  {
  }

  lemma {:induction false} KeepOne(imports: seq<Name>, files: set<Name>, i: nat)
    requires i < |imports|
    ensures Keep(imports[..i + 1], files) == Keep(imports[..i], files) + if imports[i] in files then [imports[i]] else []
  {
    assert imports[..i + 1][..i] == imports[..i];
  }

  // Reachability, along modules that are not blacklisted.

  ghost predicate Edge(g: Graph, out: set<Name>, x: Name, y: Name) {
    y in Entry(g, x) && y !in out
  }

  ghost predicate Path(g: Graph, out: set<Name>, p: seq<Name>) {
    && p != [] && p[0] !in out
    && forall i :: 0 < i < |p| ==> Edge(g, out, p[i - 1], p[i])
  }

  ghost predicate Reach(g: Graph, out: set<Name>, x: Name, y: Name) {
    exists p :: Path(g, out, p) && p[0] == x && p[|p| - 1] == y
  }

  lemma {:induction false} ReachSelf(g: Graph, out: set<Name>, x: Name)
    requires x !in out
    ensures Reach(g, out, x, x)
  {
    assert Path(g, out, [x]);
  }

  lemma {:induction false} ReachFrom(g: Graph, out: set<Name>, x: Name, y: Name, z: Name)
    requires Reach(g, out, x, y) && Reach(g, out, y, z)
    ensures Reach(g, out, x, z)
  {
    var p :| Path(g, out, p) && p[0] == x && p[|p| - 1] == y;
    var q :| Path(g, out, q) && q[0] == y && q[|q| - 1] == z;
    assert Path(g, out, p + q[1..]);
  }

  lemma {:induction false} ReachOn(g: Graph, out: set<Name>, x: Name, y: Name, z: Name)
    requires Reach(g, out, x, y) && Edge(g, out, y, z)
    ensures Reach(g, out, x, z)
  {
    var p :| Path(g, out, p) && p[0] == x && p[|p| - 1] == y;
    assert Path(g, out, p + [z]);
  }

  ghost predicate Closed(g: Graph, out: set<Name>, s: set<Name>) {
    forall x, y :: x in s && Edge(g, out, x, y) ==> y in s
  }

  lemma {:induction false} ClosedReach(g: Graph, out: set<Name>, s: set<Name>, p: seq<Name>)
    requires Closed(g, out, s) && Path(g, out, p) && p[0] in s
    ensures p[|p| - 1] in s
  {
    if |p| > 1 {
      assert Path(g, out, p[..|p| - 1]);
      ClosedReach(g, out, s, p[..|p| - 1]);
      assert Edge(g, out, p[|p| - 2], p[|p| - 1]);
    }
  }

  ghost function Members(s: seq<Name>): set<Name> {
    set x | x in s
  }

  ghost predicate Once(s: seq<Name>) {
    forall i, j :: 0 <= i < j < |s| ==> s[i] != s[j]
  }

  /** Every dependency that is not blacklisted comes before the module, or reaches it:
      so only in a cycle it comes after. */
  ghost predicate Ordered(g: Graph, out: set<Name>, run: seq<Name>) {
    forall k, y :: 0 <= k < |run| && Edge(g, out, run[k], y) ==> y in run[..k] || Reach(g, out, y, run[k])
  }

  /** A walk over the modules `first` that were loaded when it began: visited are those in
      progress, on the stack, and those reloaded, whose dependencies are all visited. */
  ghost predicate Walking(g: Graph, out: set<Name>, first: set<Name>, stack: set<Name>, visited: set<Name>, run: seq<Name>) {
    && visited == stack + Members(run) && stack !! Members(run) && Once(run)
    && visited <= first && visited !! out
    && (forall x, y :: x in run && Edge(g, out, x, y) ==> y in visited)
    && Ordered(g, out, run)
  }

  ghost predicate AllReach(g: Graph, out: set<Name>, stack: set<Name>, m: Name) {
    forall a :: a in stack ==> Reach(g, out, a, m)
  }

  /** The run from n on is of modules that m reaches. */
  ghost predicate FromReach(g: Graph, out: set<Name>, m: Name, run: seq<Name>, n: nat) {
    forall k :: n <= k < |run| ==> Reach(g, out, m, run[k])
  }

  lemma {:induction false} Begin(g: Graph, out: set<Name>, first: set<Name>, m: Name)
    ensures Walking(g, out, first, {}, {}, []) && AllReach(g, out, {}, m)
  {
  }

  lemma {:induction false} Enter(g: Graph, out: set<Name>, first: set<Name>, stack: set<Name>, visited: set<Name>, run: seq<Name>, m: Name)
    requires Walking(g, out, first, stack, visited, run) && m in first && m !in visited && m !in out
    requires AllReach(g, out, stack, m)
    ensures Walking(g, out, first, stack + {m}, visited + {m}, run) && m !in run && m !in stack
    ensures AllReach(g, out, stack + {m}, m) && FromReach(g, out, m, run, |run|)
  {
    ReachSelf(g, out, m);
  }

  lemma {:induction false} Leave(g: Graph, out: set<Name>, first: set<Name>, stack: set<Name>, visited: set<Name>, run: seq<Name>, m: Name, n: nat)
    requires Walking(g, out, first, stack + {m}, visited, run) && m !in stack && n <= |run|
    requires forall y :: y in Entry(g, m) ==> y in visited || y in out
    requires AllReach(g, out, stack + {m}, m) && FromReach(g, out, m, run, n)
    ensures Walking(g, out, first, stack, visited, run + [m]) && FromReach(g, out, m, run + [m], n) && m in visited
  {
    var run' := run + [m];
    assert Members(run') == Members(run) + {m};
    forall k, y | 0 <= k < |run'| && Edge(g, out, run'[k], y)
      ensures y in run'[..k] || Reach(g, out, y, run'[k])
    {
      if k < |run| {
        assert run'[..k] == run[..k];
      } else {
        assert run'[..k] == run;
      }
    }
  }

  /** On to a dependency of m. */
  lemma {:induction false} ToNext(g: Graph, out: set<Name>, stack: set<Name>, m: Name, d: Name)
    requires AllReach(g, out, stack, m) && m in stack && d in Entry(g, m)
    ensures d !in out ==> AllReach(g, out, stack, d)
  {
    if d !in out {
      forall a | a in stack
        ensures Reach(g, out, a, d)
      {
        assert Edge(g, out, m, d);
        ReachOn(g, out, a, m, d);
      }
    }
  }

  lemma {:induction false} NothingYet(g: Graph, out: set<Name>, m: Name, run: seq<Name>)
    ensures FromReach(g, out, m, run, |run|)
  {
  }

  lemma {:induction false} BackFrom(g: Graph, out: set<Name>, stack: set<Name>, m: Name, d: Name, run: seq<Name>, n: nat, k: nat)
    requires n <= k <= |run| && FromReach(g, out, m, run[..k], n) && FromReach(g, out, d, run, k)
    requires m in stack && (k < |run| ==> AllReach(g, out, stack, d))
    ensures FromReach(g, out, m, run, n)
  {
    forall i | n <= i < |run|
      ensures Reach(g, out, m, run[i])
    {
      if i < k {
        assert run[..k][i] == run[i];
      } else {
        ReachFrom(g, out, m, d, run[i]);
      }
    }
  }

  /** A walk that is over has reloaded what m reaches, and nothing else. */
  lemma {:induction false} WalkOver(g: Graph, out: set<Name>, first: set<Name>, visited: set<Name>, run: seq<Name>, m: Name)
    requires Walking(g, out, first, {}, visited, run) && FromReach(g, out, m, run, 0)
    requires if m in out then run == [] else m in visited
    ensures forall x :: x in run <==> Reach(g, out, m, x)
    ensures Once(run) && Ordered(g, out, run)
  {
    forall x | Reach(g, out, m, x)
      ensures x in run
    {
      var p :| Path(g, out, p) && p[0] == m && p[|p| - 1] == x;
      ClosedReach(g, out, visited, p);
    }
  }

  // The order of a walk.

  ghost predicate Inside(g: Graph, first: set<Name>) {
    forall x, y :: x in g && y in g[x] ==> y in first
  }

  /** The modules a walk from m reloads, in order, if those in `out` are left out: what its
      last dependency brings, then what the one before it still brings, and so on, and m. */
  ghost function Post(first: set<Name>, g: Graph, out: set<Name>, m: Name): (run: seq<Name>)
    requires Inside(g, first) && m in first
    ensures forall x :: x in run ==> x in first && x !in out
    ensures if m in out then run == [] else run != [] && run[|run| - 1] == m
    decreases first - out, 0, 0
  {
    if m in out then []
    else
      assert first - (out + {m}) < first - out by { assert m in first - out; }
      PostAll(first, g, out + {m}, Entry(g, m), |Entry(g, m)|) + [m]
  }

  /** The same for the first n of the given modules, from the last of them to the first. */
  ghost function PostAll(first: set<Name>, g: Graph, out: set<Name>, ds: seq<Name>, n: nat): (run: seq<Name>)
    requires Inside(g, first) && n <= |ds| && forall i :: 0 <= i < |ds| ==> ds[i] in first
    ensures forall x :: x in run ==> x in first && x !in out
    decreases first - out, 1, n
  {
    if n == 0 then []
    else
      var run := Post(first, g, out, ds[n - 1]);
      assert run != [] ==> run[0] in first - out;
      assert run == [] ==> out + Members(run) == out;
      run + PostAll(first, g, out + Members(run), ds, n - 1)
  }

  /** What is left out is not on a path. */
  lemma {:induction false} ReachLess(g: Graph, out: set<Name>, out': set<Name>, x: Name, y: Name)
    requires Reach(g, out', x, y) && out <= out'
    ensures Reach(g, out, x, y)
  {
    var p :| Path(g, out', p) && p[0] == x && p[|p| - 1] == y;
    assert forall i :: 0 < i < |p| ==> Edge(g, out', p[i - 1], p[i]);
    assert Path(g, out, p);
  }

  /** A walk from m reloads only what m reaches past those left out. */
  lemma {:induction false} PostReach(first: set<Name>, g: Graph, out: set<Name>, m: Name, x: Name)
    requires Inside(g, first) && m in first && x in Post(first, g, out, m)
    ensures Reach(g, out, m, x)
    decreases first - out, 0, 0
  {
    hide Reach;
    assert m in first - out;
    if x == m {
      ReachSelf(g, out, m);
    } else {
      var ds := Entry(g, m);
      var k := PostAllReach(first, g, out + {m}, ds, |ds|, x);
      ReachLess(g, out, out + {m}, ds[k], x);
      NotOut(g, out, ds[k], x);
      ReachSelf(g, out, m);
      assert Edge(g, out, m, ds[k]);
      ReachOn(g, out, m, m, ds[k]);
      ReachFrom(g, out, m, ds[k], x);
    }
  }

  lemma {:induction false} NotOut(g: Graph, out: set<Name>, x: Name, y: Name)
    requires Reach(g, out, x, y)
    ensures x !in out && y !in out
  {
    var p :| Path(g, out, p) && p[0] == x && p[|p| - 1] == y;
    assert |p| > 1 ==> Edge(g, out, p[|p| - 2], p[|p| - 1]);
  }

  lemma {:induction false} PostAllReach(first: set<Name>, g: Graph, out: set<Name>, ds: seq<Name>, n: nat, x: Name) returns (k: nat)
    requires Inside(g, first) && n <= |ds| && forall i :: 0 <= i < |ds| ==> ds[i] in first
    requires x in PostAll(first, g, out, ds, n)
    ensures k < n && Reach(g, out, ds[k], x)
    decreases first - out, 1, n
  {
    hide Reach;
    var run := Post(first, g, out, ds[n - 1]);
    assert run != [] ==> run[0] in first - out;
    assert run == [] ==> out + Members(run) == out;
    if x in run {
      PostReach(first, g, out, ds[n - 1], x);
      k := n - 1;
    } else {
      k := PostAllReach(first, g, out + Members(run), ds, n - 1, x);
      ReachLess(g, out, out + Members(run), ds[k], x);
    }
  }

  /** a comes before b. */
  ghost predicate Before(run: seq<Name>, a: Name, b: Name) {
    exists p, q :: 0 <= p < q < |run| && run[p] == a && run[q] == b
  }

  lemma {:induction false} BeforeAcross(front: seq<Name>, back: seq<Name>, a: Name, b: Name)
    requires a in front && b in back
    ensures Before(front + back, a, b)
  {
    var p :| 0 <= p < |front| && front[p] == a;
    var q :| 0 <= q < |back| && back[q] == b;
    assert (front + back)[p] == a && (front + back)[|front| + q] == b;
  }

  lemma {:induction false} BeforeWithin(front: seq<Name>, run: seq<Name>, back: seq<Name>, a: Name, b: Name)
    requires Before(run, a, b)
    ensures Before(front + run + back, a, b)
  {
    var p, q :| 0 <= p < q < |run| && run[p] == a && run[q] == b;
    var all := front + run + back;
    assert all[|front| + p] == a && all[|front| + q] == b;
  }

  /** i is no dependency of m that one after it brings in first. */
  ghost predicate OwnTurn(g: Graph, out: set<Name>, m: Name, ds: seq<Name>, i: nat)
    requires i < |ds|
  {
    forall k :: i < k < |ds| ==> !Reach(g, out + {m}, ds[k], ds[i])
  }

  /** The dependencies of m are reloaded from the last to the first: j before i < j, unless
      i is brought in by one after it, past m and those left out. */
  ghost predicate LaterFirst(g: Graph, out: set<Name>, m: Name, run: seq<Name>) {
    var ds := Entry(g, m);
    forall i, j :: 0 <= i < j < |ds| && ds[i] !in out && ds[j] !in out + {m} && OwnTurn(g, out, m, ds, i) ==>
      Before(run, ds[j], ds[i])
  }

  lemma {:induction false} PostLaterFirst(first: set<Name>, g: Graph, out: set<Name>, m: Name)
    requires Inside(g, first) && m in first && m !in out
    ensures LaterFirst(g, out, m, Post(first, g, out, m))
  {
    hide Reach, PostAll;
    var ds := Entry(g, m);
    var all := PostAll(first, g, out + {m}, ds, |ds|);
    forall i, j | 0 <= i < j < |ds| && ds[i] !in out && ds[j] !in out + {m} && OwnTurn(g, out, m, ds, i)
      ensures Before(all + [m], ds[j], ds[i])
    {
      if ds[i] == m {
        PostAllHas(first, g, out + {m}, ds, |ds|, j);
        BeforeAcross(all, [m], ds[j], m);
      } else {
        PostAllLaterFirst(first, g, out + {m}, ds, |ds|, i, j);
        BeforeWithin([], all, [m], ds[j], ds[i]);
        assert [] + all + [m] == all + [m];
      }
    }
  }

  lemma {:induction false} PostAllOne(first: set<Name>, g: Graph, out: set<Name>, ds: seq<Name>, n: nat)
    requires Inside(g, first) && 0 < n <= |ds| && forall i :: 0 <= i < |ds| ==> ds[i] in first
    ensures var run := Post(first, g, out, ds[n - 1]);
            && PostAll(first, g, out, ds, n) == run + PostAll(first, g, out + Members(run), ds, n - 1)
            && (run == [] ==> PostAll(first, g, out, ds, n) == PostAll(first, g, out, ds, n - 1))
  {
    var run := Post(first, g, out, ds[n - 1]);
    assert run == [] ==> out + Members(run) == out;
  }

  lemma {:induction false} PostAllHas(first: set<Name>, g: Graph, out: set<Name>, ds: seq<Name>, n: nat, j: nat)
    requires Inside(g, first) && n <= |ds| && forall i :: 0 <= i < |ds| ==> ds[i] in first
    requires j < n && ds[j] !in out
    ensures ds[j] in PostAll(first, g, out, ds, n)
    decreases n
  {
    var run := Post(first, g, out, ds[n - 1]);
    PostAllOne(first, g, out, ds, n);
    hide Post, PostAll;
    if j < n - 1 && ds[j] !in run {
      PostAllHas(first, g, out + Members(run), ds, n - 1, j);
    }
  }

  lemma {:induction false} PostAllLaterFirst(first: set<Name>, g: Graph, out: set<Name>, ds: seq<Name>, n: nat, i: nat, j: nat)
    requires Inside(g, first) && n <= |ds| && forall k :: 0 <= k < |ds| ==> ds[k] in first
    requires i < j < n && ds[i] !in out && ds[j] !in out
    requires forall k :: i < k < n ==> !Reach(g, out, ds[k], ds[i])
    ensures Before(PostAll(first, g, out, ds, n), ds[j], ds[i])
    decreases n
  {
    hide Reach, Post, PostAll, Before;
    PostAllOne(first, g, out, ds, n);
    var run := Post(first, g, out, ds[n - 1]);
    var out' := out + Members(run);
    var rest := PostAll(first, g, out', ds, n - 1);
    if ds[i] in run { PostReach(first, g, out, ds[n - 1], ds[i]); }
    if ds[j] in run {
      PostAllHas(first, g, out', ds, n - 1, i);
      BeforeAcross(run, rest, ds[j], ds[i]);
    } else {
      forall k | i < k < n - 1
        ensures !Reach(g, out', ds[k], ds[i])
      {
        if Reach(g, out', ds[k], ds[i]) { ReachLess(g, out, out', ds[k], ds[i]); }
      }
      PostAllLaterFirst(first, g, out', ds, n - 1, i, j);
      BeforeWithin(run, rest, [], ds[j], ds[i]);
      assert run + rest + [] == run + rest;
    }
  }

  /** In the walk from m past `out` and v0 dependency i and those after it have had their
      turn, and brought soFar. */
  ghost predicate InTurn(first: set<Name>, g: Graph, out: set<Name>, v0: set<Name>, m: Name, i: nat, soFar: seq<Name>, visited: set<Name>)
    requires Inside(g, first) && m in first && i <= |Entry(g, m)|
  {
    var ds := Entry(g, m);
    && visited == v0 + {m} + Members(soFar)
    && soFar + PostAll(first, g, out + visited, ds, i) == PostAll(first, g, out + v0 + {m}, ds, |ds|)
  }

  lemma {:induction false} FirstTurn(first: set<Name>, g: Graph, out: set<Name>, v0: set<Name>, m: Name)
    requires Inside(g, first) && m in first
    ensures InTurn(first, g, out, v0, m, |Entry(g, m)|, [], v0 + {m})
  {
    hide PostAll;
    assert out + v0 + {m} == out + (v0 + {m});
  }

  lemma {:induction false} OneTurn(first: set<Name>, g: Graph, out: set<Name>, v0: set<Name>, m: Name, i: nat,
                                   soFar: seq<Name>, visited: set<Name>, run: seq<Name>)
    requires Inside(g, first) && m in first && 0 < i <= |Entry(g, m)| && InTurn(first, g, out, v0, m, i, soFar, visited)
    requires run == Post(first, g, out + visited, Entry(g, m)[i - 1])
    ensures InTurn(first, g, out, v0, m, i - 1, soFar + run, visited + Members(run))
  {
    hide Post, PostAll, Members;
    PostAllOne(first, g, out + visited, Entry(g, m), i);
    MembersCat(soFar, run);
    var rest := PostAll(first, g, out + visited + Members(run), Entry(g, m), i - 1);
    assert out + (visited + Members(run)) == out + visited + Members(run);
    assert soFar + run + rest == soFar + (run + rest);
  }

  lemma {:induction false} NoTurn(first: set<Name>, g: Graph, out: set<Name>, m: Name)
    requires Inside(g, first) && m in first && m in out
    ensures Post(first, g, out, m) == [] && Members([]) == {}
  {
  }

  lemma {:induction false} LastTurn(first: set<Name>, g: Graph, out: set<Name>, v0: set<Name>, m: Name, soFar: seq<Name>, visited: set<Name>)
    requires Inside(g, first) && m in first && m !in out + v0 && InTurn(first, g, out, v0, m, 0, soFar, visited)
    ensures Post(first, g, out + v0, m) == soFar + [m] && visited == v0 + Members(soFar + [m])
  {
  }

  /** Module k of a run ends a walk of its own, from place n on: with those left out that
      come before it in the run, and some that come after it. */
  ghost predicate EndsWalk(first: set<Name>, g: Graph, out: set<Name>, run: seq<Name>, k: nat, n: nat, above: set<Name>)
    requires Inside(g, first) && k < |run|
  {
    && n <= k && above <= Members(run[k + 1..])
    && run[k] in first && run[k] !in out + Members(run[..n]) + above
    && run[n..k + 1] == Post(first, g, out + Members(run[..n]) + above, run[k])
  }

  lemma {:induction false} MembersCat(a: seq<Name>, b: seq<Name>)
    ensures Members(a + b) == Members(a) + Members(b)
  {
  }

  lemma {:induction false} EndsWithin(first: set<Name>, g: Graph, out: set<Name>, front: seq<Name>, run: seq<Name>, back: seq<Name>,
                                      k: nat, n: nat, above: set<Name>, more: set<Name>)
    requires Inside(g, first) && k < |run| && more <= Members(back)
    requires EndsWalk(first, g, out + Members(front) + more, run, k, n, above)
    ensures EndsWalk(first, g, out, front + run + back, |front| + k, |front| + n, above + more)
  {
    hide Post, Members;
    var all := front + run + back;
    assert all[|front| + n..|front| + k + 1] == run[n..k + 1] && all[|front| + k] == run[k];
    assert all[..|front| + n] == front + run[..n] && all[|front| + k + 1..] == run[k + 1..] + back;
    MembersCat(front, run[..n]);
    MembersCat(run[k + 1..], back);
    assert out + Members(front) + more + Members(run[..n]) + above == out + Members(front + run[..n]) + (above + more);
  }

  /** Every module of a walk ends a walk of its own: with those left out that come before it
      in the run, and the ones on the way to it, which come after it. So what holds of the
      first module's dependencies holds of those of each module further down. */
  lemma {:induction false} WalkWithin(first: set<Name>, g: Graph, out: set<Name>, m: Name, k: nat)
    returns (n: nat, above: set<Name>)
    requires Inside(g, first) && m in first && k < |Post(first, g, out, m)|
    ensures EndsWalk(first, g, out, Post(first, g, out, m), k, n, above)
    decreases first - out, 0, 0
  {
    hide PostAll, Post, EndsWalk, Members;
    PostIs(first, g, out, m);
    var run, all := Post(first, g, out, m), PostAll(first, g, out + {m}, Entry(g, m), |Entry(g, m)|);
    assert m in first - out;
    if k < |all| {
      n, above := WalkAllWithin(first, g, out + {m}, Entry(g, m), |Entry(g, m)|, k);
      MembersFew(m);
      assert [] + all + [m] == run && out + Members([]) + {m} == out + {m};
      EndsWithin(first, g, out, [], all, [m], k, n, above, {m});
      above := above + {m};
    } else {
      n, above := 0, {};
      WholeWalk(first, g, out, m);
    }
  }

  lemma {:induction false} PostIs(first: set<Name>, g: Graph, out: set<Name>, m: Name)
    requires Inside(g, first) && m in first && Post(first, g, out, m) != []
    ensures m !in out
    ensures Post(first, g, out, m) == PostAll(first, g, out + {m}, Entry(g, m), |Entry(g, m)|) + [m]
  {
  }

  lemma {:induction false} PostAllNone(first: set<Name>, g: Graph, out: set<Name>, ds: seq<Name>)
    requires Inside(g, first) && forall i :: 0 <= i < |ds| ==> ds[i] in first
    ensures PostAll(first, g, out, ds, 0) == []
  {
  }

  lemma MembersFew(m: Name)
    ensures Members([]) == {} && Members([m]) == {m}
  {
  }

  lemma InMembers(run: seq<Name>)
    ensures run != [] ==> run[|run| - 1] in Members(run)
  {
  }

  lemma {:induction false} WholeWalk(first: set<Name>, g: Graph, out: set<Name>, m: Name)
    requires Inside(g, first) && m in first && m !in out
    ensures var run := Post(first, g, out, m); EndsWalk(first, g, out, run, |run| - 1, 0, {})
  {
    var run := Post(first, g, out, m);
    hide Post;
    assert out + Members(run[..0]) + {} == out && run[0..] == run;
  }

  lemma {:induction false} WalkAllWithin(first: set<Name>, g: Graph, out: set<Name>, ds: seq<Name>, c: nat, k: nat)
    returns (n: nat, above: set<Name>)
    requires Inside(g, first) && c <= |ds| && forall i :: 0 <= i < |ds| ==> ds[i] in first
    requires k < |PostAll(first, g, out, ds, c)|
    ensures EndsWalk(first, g, out, PostAll(first, g, out, ds, c), k, n, above)
    decreases first - out, 1, c
  {
    hide PostAll, Post, EndsWalk, Members;
    PostAllNone(first, g, out, ds);
    PostAllOne(first, g, out, ds, c);
    var front := Post(first, g, out, ds[c - 1]);
    var back := PostAll(first, g, out + Members(front), ds, c - 1);
    MembersFew(ds[c - 1]);
    assert front != [] ==> front[|front| - 1] in first - out && front[|front| - 1] in Members(front) by { InMembers(front); }
    assert front == [] ==> out + Members(front) == out;
    if k < |front| {
      n, above := WalkWithin(first, g, out, ds[c - 1], k);
      assert [] + front + back == front + back && out + Members([]) + {} == out && above + {} == above;
      EndsWithin(first, g, out, [], front, back, k, n, above, {});
    } else {
      n, above := WalkAllWithin(first, g, out + Members(front), ds, c - 1, k - |front|);
      assert front + back + [] == front + back && out + Members(front) + {} == out + Members(front) && above + {} == above;
      EndsWithin(first, g, out, front, back, [], k - |front|, n, above, {});
      n := |front| + n;
    }
  }

  /** What running the source of x records for it. */
  ghost function Recorded(body: Graph, files: set<Name>, x: Name): seq<Name> {
    if x in body then Keep(body[x], files) else []
  }

  /** Only loaded modules are in the graph, and what they import can be loaded. */
  ghost predicate Known(body: Graph, deps: Graph, loaded: set<Name>) {
    && (forall x, y :: x in body && y in body[x] ==> y in body)
    && deps.Keys <= loaded <= body.Keys
    && (forall x, y :: x in deps && y in deps[x] ==> y in loaded)
  }

  /** From the first graph to the second one the entry of x grew by `added`, modules not
      loaded before got their own entries, and nothing else changed. */
  ghost predicate Grown(body: Graph, files: set<Name>, d0: Graph, l0: set<Name>, d1: Graph, l1: set<Name>, x: Name, added: seq<Name>) {
    && l0 <= l1
    && (forall y :: y in l1 && y !in l0 ==> Entry(d1, y) == Recorded(body, files, y))
    && (forall y :: y in l0 && y != x ==> Entry(d1, y) == Entry(d0, y))
    && Entry(d1, x) == Entry(d0, x) + added
  }

  lemma {:induction false} GrownNone(body: Graph, files: set<Name>, d: Graph, l: set<Name>, x: Name)
    ensures Grown(body, files, d, l, d, l, x, [])
  {
  }

  lemma {:induction false} GrownMore(body: Graph, files: set<Name>, d0: Graph, l0: set<Name>, d1: Graph, l1: set<Name>,
                                     d2: Graph, l2: set<Name>, x: Name, a: seq<Name>, b: seq<Name>)
    requires x in l0 && Grown(body, files, d0, l0, d1, l1, x, a) && Grown(body, files, d1, l1, d2, l2, x, b)
    ensures Grown(body, files, d0, l0, d2, l2, x, a + b)
  {
  }

  /** A module that had not been loaded, and now has run, is one of the new ones. */
  lemma {:induction false} GrownNew(body: Graph, files: set<Name>, d0: Graph, l0: set<Name>, d1: Graph, l1: set<Name>, new_: Name, x: Name)
    requires new_ !in l0 && d0.Keys <= l0 && x in l0
    requires Grown(body, files, d0, l0 + {new_}, d1, l1, new_, Recorded(body, files, new_))
    ensures Grown(body, files, d0, l0, d1, l1, x, [])
  {
  }

  lemma {:induction false} GrownOne(body: Graph, files: set<Name>, d0: Graph, l0: set<Name>, d1: Graph, l1: set<Name>, x: Name, y: Name)
    requires Known(body, d1, l1) && x in l0 && y in l1 && Grown(body, files, d0, l0, d1, l1, x, [])
    ensures Known(body, d1[x := Entry(d1, x) + [y]], l1)
    ensures Grown(body, files, d0, l0, d1[x := Entry(d1, x) + [y]], l1, x, [y])
  {
  }

  lemma {:induction false} KnownMore(body: Graph, deps: Graph, loaded: set<Name>, x: Name)
    requires Known(body, deps, loaded) && x in body
    ensures Known(body, deps, loaded + {x}) && (x !in loaded ==> x !in deps)
  {
  }

  lemma {:induction false} LoadedNone(body: Graph, deps: Graph, loaded: set<Name>)
    requires Known(body, deps, loaded)
    ensures deps.Keys <= loaded <= body.Keys
  {
  }

  lemma {:induction false} GrownLoaded(body: Graph, files: set<Name>, d0: Graph, l0: set<Name>, d1: Graph, l1: set<Name>, x: Name, added: seq<Name>)
    requires Grown(body, files, d0, l0, d1, l1, x, added)
    ensures l0 <= l1
  {
  }

  lemma {:induction false} KnownImports(body: Graph, deps: Graph, loaded: set<Name>, x: Name)
    requires Known(body, deps, loaded) && x in loaded
    ensures x in body && forall i :: 0 <= i < |body[x]| ==> body[x][i] in body
  {
  }

  lemma {:induction false} KnownLess(body: Graph, deps: Graph, loaded: set<Name>, x: Name)
    requires Known(body, deps, loaded)
    ensures Known(body, deps - {x}, loaded)
  {
  }

  /** The graph of a walk: of the modules that were loaded when it began those reloaded
      have new entries, and the others the old ones. */
  ghost predicate Entries(body: Graph, files: set<Name>, g: Graph, first: set<Name>, deps: Graph, loaded: set<Name>, run: seq<Name>) {
    && first <= loaded
    && (forall x :: x in first ==> Entry(deps, x) == if x in run then Recorded(body, files, x) else Entry(g, x))
    && (forall x :: x in loaded && x !in first ==> Entry(deps, x) == Recorded(body, files, x))
  }

  lemma {:induction false} EntryKept(body: Graph, files: set<Name>, g: Graph, first: set<Name>, deps: Graph, loaded: set<Name>, run: seq<Name>, m: Name)
    requires Entries(body, files, g, first, deps, loaded, run) && m in first && m !in run
    ensures Entry(deps, m) == Entry(g, m) && m in loaded
  {
  }

  lemma {:induction false} FirstLoaded(body: Graph, files: set<Name>, g: Graph, first: set<Name>, deps: Graph, loaded: set<Name>, run: seq<Name>)
    requires Entries(body, files, g, first, deps, loaded, run)
    ensures first <= loaded
  {
  }

  lemma {:induction false} EntriesRun(body: Graph, files: set<Name>, g: Graph, first: set<Name>, d0: Graph, l0: set<Name>,
                                      d1: Graph, l1: set<Name>, run: seq<Name>, m: Name)
    requires Entries(body, files, g, first, d0, l0, run) && m in first
    requires Grown(body, files, d0 - {m}, l0, d1, l1, m, Recorded(body, files, m))
    ensures Entries(body, files, g, first, d1, l1, run + [m])
  {
    assert forall y :: y != m ==> Entry(d0 - {m}, y) == Entry(d0, y);
    assert Entry(d1, m) == Recorded(body, files, m);
  }

  class Reloader {
    const body: Graph            // what the source of each module imports
    const files: set<Name>       // the modules with a file
    const blacklist: set<Name>   // none is as good as an empty one
    var deps: Graph
    var parent: Option<Name>
    var loaded: set<Name>
    var visited: set<Name>
    var reloads: seq<Name>       // the modules reloaded by the walk, in order

    ghost predicate Valid()
      reads `deps, `loaded
    {
      Known(body, deps, loaded)
    }

    constructor (body: Graph, files: set<Name>, blacklist: set<Name>, deps: Graph, loaded: set<Name>)
      ensures this.body == body && this.files == files && this.blacklist == blacklist
      ensures this.deps == deps && this.loaded == loaded && parent == None
    {
      this.body, this.files, this.blacklist, this.deps, this.loaded := body, files, blacklist, deps, loaded;
      parent, visited, reloads := None, {}, [];
    }

    /** A module not yet loaded is run, and its own imports recorded; the import itself is
        recorded for the module that runs, x. */
    method Import(name: Name, ghost x: Name)
      requires Valid() && name in body && x in loaded && (parent.Some? ==> parent == Some(x))
      modifies `deps, `parent, `loaded
      ensures Valid() && parent == old(parent) && name in loaded
      ensures Grown(body, files, old(deps), old(loaded), deps, loaded, x, if parent.Some? && name in files then [name] else [])
      decreases body.Keys - loaded, 0
    {
      hide Known, Grown, Recorded, Entry;
      var p := parent;
      parent := Some(name);
      KnownMore(body, deps, loaded, name);
      GrownNone(body, files, deps, loaded, x);
      if name !in loaded {
        LoadedNone(body, deps, loaded);
        loaded := loaded + {name};
        Execute(name);
        GrownNew(body, files, old(deps), old(loaded), deps, loaded, name, x);
      }
      if p.Some? && name in files {
        GrownOne(body, files, old(deps), old(loaded), deps, loaded, x, name);
        deps := deps[p.value := Entry(deps, p.value) + [name]];
      }
      parent := p;
    }

    /** Run the source of a module with no entry yet. */
    method Execute(name: Name)
      requires Valid() && name in loaded && parent == Some(name) && name !in deps
      modifies `deps, `parent, `loaded
      ensures Valid() && parent == old(parent) && old(loaded) <= loaded
      ensures Grown(body, files, old(deps), old(loaded), deps, loaded, name, Recorded(body, files, name))
      decreases body.Keys - loaded, 1
    {
      hide Known, Grown, Entry, Keep;
      KnownImports(body, deps, loaded, name);
      GrownNone(body, files, deps, loaded, name);
      KeepNone(body[name], files);
      for i := 0 to |body[name]|
        invariant Valid() && parent == old(parent) && old(loaded) <= loaded
        invariant Grown(body, files, old(deps), old(loaded), deps, loaded, name, Keep(body[name][..i], files))
      {
        ghost var d, l := deps, loaded;
        Import(body[name][i], name);
        GrownLoaded(body, files, d, l, deps, loaded, name, if body[name][i] in files then [body[name][i]] else []);
        GrownMore(body, files, old(deps), old(loaded), d, l, deps, loaded, name,
                  Keep(body[name][..i], files), if body[name][i] in files then [body[name][i]] else []);
        KeepOne(body[name], files, i);
      }
      assert body[name][..|body[name]|] == body[name];
    }

    /** Clear the entry of m and run its source again. */
    method Rerun(m: Name, ghost g: Graph, ghost first: set<Name>)
      requires Valid() && Entries(body, files, g, first, deps, loaded, reloads) && m in first
      modifies `deps, `parent, `loaded, `reloads
      ensures Valid() && Entries(body, files, g, first, deps, loaded, reloads) && reloads == old(reloads) + [m] && parent == None
    {
      hide Known, Grown, Recorded, Entries;
      FirstLoaded(body, files, g, first, deps, loaded, reloads);
      KnownLess(body, deps, loaded, m);
      deps := deps - {m};
      parent := Some(m);
      Execute(m);
      EntriesRun(body, files, g, first, old(deps), old(loaded), deps, loaded, reloads, m);
      reloads := reloads + [m];
      parent := None;
    }

    method WalkFrom(m: Name, ghost g: Graph, ghost first: set<Name>, ghost stack: set<Name>)
      requires Valid() && m in first && m !in visited && Inside(g, first)
      requires Walking(g, blacklist, first, stack, visited, reloads) && Entries(body, files, g, first, deps, loaded, reloads)
      requires m !in blacklist ==> AllReach(g, blacklist, stack, m)
      modifies this
      ensures Valid() && Walking(g, blacklist, first, stack, visited, reloads) && Entries(body, files, g, first, deps, loaded, reloads)
      ensures m !in blacklist ==> m in visited
      ensures FromReach(g, blacklist, m, reloads, |old(reloads)|)
      ensures reloads == old(reloads) + Post(first, g, blacklist + old(visited), m)
      ensures visited == old(visited) + Members(Post(first, g, blacklist + old(visited), m))
      ensures parent == if m in blacklist then old(parent) else None
      decreases first - visited, 0
    {
      hide Walking, AllReach, FromReach, Reach, Known, Entries, Recorded, Post, PostAll, Members, InTurn;
      if m in blacklist {
        NothingYet(g, blacklist, m, reloads);
        NoTurn(first, g, blacklist + visited, m);
        return;
      }
      FirstTurn(first, g, blacklist, visited, m);
      Enter(g, blacklist, first, stack, visited, reloads, m);
      visited := visited + {m};
      var ds := Entry(deps, m);
      EntryKept(body, files, g, first, deps, loaded, reloads, m);
      var i := |ds|;
      ghost var soFar := [];
      while i > 0
        invariant 0 <= i <= |ds| && Valid() && Entries(body, files, g, first, deps, loaded, reloads)
        invariant Walking(g, blacklist, first, stack + {m}, visited, reloads) && old(visited) + {m} <= visited
        invariant FromReach(g, blacklist, m, reloads, |old(reloads)|)
        invariant forall j :: i <= j < |ds| ==> ds[j] in visited || ds[j] in blacklist
        invariant reloads == old(reloads) + soFar && InTurn(first, g, blacklist, old(visited), m, i, soFar, visited)
      {
        ghost var brought := Post(first, g, blacklist + visited, ds[i - 1]);
        OneTurn(first, g, blacklist, old(visited), m, i, soFar, visited, brought);
        i := i - 1;
        WalkNext(ds[i], m, g, first, stack + {m}, |old(reloads)|);
        soFar := soFar + brought;
      }
      LastTurn(first, g, blacklist, old(visited), m, soFar, visited);
      Leave(g, blacklist, first, stack, visited, reloads, m, |old(reloads)|);
      Rerun(m, g, first);
    }

    /** On to dependency d of m, if it has not been visited. */
    method WalkNext(d: Name, ghost m: Name, ghost g: Graph, ghost first: set<Name>, ghost stack: set<Name>, ghost n: nat)
      requires Valid() && d in Entry(g, m) && m in stack && Inside(g, first)
      requires Walking(g, blacklist, first, stack, visited, reloads) && Entries(body, files, g, first, deps, loaded, reloads)
      requires AllReach(g, blacklist, stack, m) && n <= |reloads| && FromReach(g, blacklist, m, reloads, n)
      modifies this
      ensures Valid() && Walking(g, blacklist, first, stack, visited, reloads) && Entries(body, files, g, first, deps, loaded, reloads)
      ensures (d in visited || d in blacklist) && d in first
      ensures FromReach(g, blacklist, m, reloads, n)
      ensures reloads == old(reloads) + Post(first, g, blacklist + old(visited), d)
      ensures visited == old(visited) + Members(Post(first, g, blacklist + old(visited), d))
      decreases first - visited, 1
    {
      hide Walking, AllReach, FromReach, Reach, Known, Entries, Recorded, Post, PostAll, Members;
      if d in visited {
        NoTurn(first, g, blacklist + visited, d);
      } else {
        ToNext(g, blacklist, stack, m, d);
        WalkFrom(d, g, first, stack);
        BackFrom(g, blacklist, stack, m, d, reloads, n, |old(reloads)|);
      }
    }

    /** Reload the modules m depends on, in reverse order, and then m. */
    method Reload(m: Name)
      requires Valid() && m in loaded
      modifies this
      ensures Valid() && old(loaded) <= loaded && parent == if m in blacklist then old(parent) else None
      ensures forall x :: x in reloads <==> Reach(old(deps), blacklist, m, x)
      ensures Once(reloads) && Ordered(old(deps), blacklist, reloads)
      ensures Inside(old(deps), old(loaded)) && reloads == Post(old(loaded), old(deps), blacklist, m)
      ensures m !in blacklist ==> LaterFirst(old(deps), blacklist, m, reloads)
      ensures forall x :: x in loaded ==>
        Entry(deps, x) == if x in reloads || x !in old(loaded) then Recorded(body, files, x) else Entry(old(deps), x)
    {
      hide Walking, AllReach, FromReach, Reach, Ordered, Once, Post, LaterFirst, Members;
      visited, reloads := {}, [];
      Begin(deps, blacklist, loaded, m);
      WalkFrom(m, deps, loaded, {});
      WalkOver(old(deps), blacklist, old(loaded), visited, reloads, m);
      assert blacklist + {} == blacklist && [] + reloads == reloads;
      if m !in blacklist { PostLaterFirst(old(loaded), old(deps), blacklist, m); }
    }
  }

  /** One reload in a program whose modules `loaded` have the recorded graph `deps`: just
      the modules that m reaches there are reloaded, each once, whatever their sources
      import now; and their entries, and no others, are those of their sources. */
  method ReloadOnce(body: Graph, files: set<Name>, blacklist: set<Name>, deps: Graph, loaded: set<Name>, m: Name)
    returns (run: seq<Name>, rebuilt: Graph)
    requires Known(body, deps, loaded) && m in loaded
    ensures forall x :: x in run <==> Reach(deps, blacklist, m, x)
    ensures Once(run) && Ordered(deps, blacklist, run)
    ensures Inside(deps, loaded) && run == Post(loaded, deps, blacklist, m)
    ensures m !in blacklist ==> LaterFirst(deps, blacklist, m, run)
    ensures forall x :: x in loaded ==> Entry(rebuilt, x) == if x in run then Recorded(body, files, x) else Entry(deps, x)
  {
    hide Known, Reach, Ordered, Once, Recorded, LaterFirst, Post;
    var r := new Reloader(body, files, blacklist, deps, loaded);
    r.Reload(m);
    run, rebuilt := r.reloads, r.deps;
  }

  ghost predicate Acyclic(g: Graph, out: set<Name>) {
    forall x, y :: Edge(g, out, x, y) ==> !Reach(g, out, y, x)
  }

  /** Without cycles a module is reloaded after everything it reaches. */
  lemma {:induction false} DependenciesFirst(g: Graph, out: set<Name>, run: seq<Name>, k: nat, p: seq<Name>)
    requires Acyclic(g, out) && Ordered(g, out, run) && k < |run|
    requires Path(g, out, p) && p[0] == run[k] && |p| > 1
    ensures p[|p| - 1] in run[..k]
  {
    var q := p[..|p| - 1];
    assert Path(g, out, q) && Edge(g, out, p[|p| - 2], p[|p| - 1]);
    if |q| > 1 {
      DependenciesFirst(g, out, run, k, q);
      var j :| 0 <= j < k && run[j] == q[|q| - 1];
      assert p[|p| - 1] in run[..j];
    }
  }
}
