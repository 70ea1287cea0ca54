// mytest2.py: the triples of a list that sum to zero.

module ThreeSums {
  import opened Basics

  datatype Triple = Triple(a: int, b: int, c: int)

  /** The call of list.sort. */
  function Sorted(s: seq<int>): (r: seq<int>)
    ensures |r| == |s|
  {
    if s == [] then [] else Insert(s[0], Sorted(s[1..]))
  }

  function Insert(x: int, s: seq<int>): (r: seq<int>)
    ensures |r| == |s| + 1
  {
    if s == [] || x <= s[0] then [x] + s else [s[0]] + Insert(x, s[1..])
  }

  ghost predicate Up(s: seq<int>) {
    forall i, j :: 0 <= i <= j < |s| ==> s[i] <= s[j]
  }

  lemma {:induction false} InsertMembers(x: int, s: seq<int>)
    ensures multiset(Insert(x, s)) == multiset{x} + multiset(s)
  {
    if s != [] && s[0] < x {
      InsertMembers(x, s[1..]);
      assert s == [s[0]] + s[1..];
    }
  }

  lemma {:induction false} InsertUp(x: int, s: seq<int>)
    requires Up(s)
    ensures Up(Insert(x, s))
    ensures Insert(x, s)[0] == if s == [] || x <= s[0] then x else s[0]
  {
    if s != [] && s[0] < x {
      InsertUp(x, s[1..]);
    }
  }

  lemma {:induction false} SortedUp(s: seq<int>)
    ensures Up(Sorted(s)) && multiset(Sorted(s)) == multiset(s)
  {
    if s != [] {
      SortedUp(s[1..]);
      InsertUp(s[0], Sorted(s[1..]));
      InsertMembers(s[0], Sorted(s[1..]));
      assert s == [s[0]] + s[1..];
    }
  }

  /** What is asked for: three members of the list, in order of size, that sum to zero. */
  ghost predicate ZeroSum(s: seq<int>, t: Triple) {
    && t.a <= t.b <= t.c && t.a + t.b + t.c == 0
    && multiset{t.a, t.b, t.c} <= multiset(s)
  }

  ghost predicate At(s: seq<int>, t: Triple, i: nat, j: nat, k: nat) {
    && i < j < k < |s|
    && t == Triple(s[i], s[j], s[k]) && t.a + t.b + t.c == 0
  }

  /** There is such a triple with its first member before `first`. */
  ghost predicate Before(s: seq<int>, t: Triple, first: nat) {
    exists i: nat, j: nat, k: nat :: i < first && At(s, t, i, j, k)
  }

  /** There is such a triple from `first`, with its second member before `second`. */
  ghost predicate Between(s: seq<int>, t: Triple, first: nat, second: nat) {
    exists j: nat, k: nat :: j < second && At(s, t, first, j, k)
  }

  lemma {:induction false} WithoutMember(s: seq<int>, i: nat)
    requires i < |s|
    ensures multiset(s) == multiset{s[i]} + multiset(Without(s, i))
  {
    assert s == s[..i] + [s[i]] + s[i + 1..];
  }

  /** In a sorted list three members stand in the order of their sizes. */
  lemma {:induction false} InPlaces(s: seq<int>, t: Triple)
    requires Up(s)
    ensures ZeroSum(s, t) <==> Before(s, t, |s|)
  {
    if ZeroSum(s, t) {
      PlacesOf(s, t);
    }
    if Before(s, t, |s|) {
      var i: nat, j: nat, k: nat :| i < |s| && At(s, t, i, j, k);
      MembersAt(s, i, j, k);
    }
  }

  lemma {:induction false} MembersAt(s: seq<int>, i: nat, j: nat, k: nat)
    requires i < j < k < |s|
    ensures multiset{s[i], s[j], s[k]} <= multiset(s)
  {
    hide Without;
    var two := Without(s, k);
    WithoutMember(s, k);
    assert two[i] == s[i] && two[j] == s[j];
    var one := Without(two, j);
    WithoutMember(two, j);
    assert one[i] == s[i];
    var none := Without(one, i);
    WithoutMember(one, i);
    assert multiset(s) == multiset{s[k]} + (multiset{s[j]} + (multiset{s[i]} + multiset(none)));
  }

  /** The place in s of member k of s without its member i. */
  function Shift(i: nat, k: nat): nat {
    if k < i then k else k + 1
  }

  lemma {:induction false} PlacesOf(s: seq<int>, t: Triple)
    requires Up(s) && ZeroSum(s, t)
    ensures Before(s, t, |s|)
  {
    hide Without, Up, Before;
    var i := PlaceOf(s, t.a, multiset{t.a, t.b, t.c});
    var r := Without(s, i);
    WithoutMember(s, i);
    assert multiset{t.a, t.b, t.c} - multiset{t.a} == multiset{t.b, t.c};
    var j, k := PairOf(r, t.b, t.c);
    InOrder(s, t, i, Shift(i, j), Shift(i, k));
  }

  lemma {:induction false} PairOf(s: seq<int>, b: int, c: int) returns (j: nat, k: nat)
    requires multiset{b, c} <= multiset(s)
    ensures j < |s| && k < |s| && j != k && s[j] == b && s[k] == c
  {
    hide Without;
    j := PlaceOf(s, b, multiset{b, c});
    assert multiset{b, c} - multiset{b} == multiset{c};
    var r := Without(s, j);
    WithoutMember(s, j);
    var k' := PlaceOf(r, c, multiset{c});
    k := Shift(j, k');
  }

  lemma {:induction false} PlaceOf(s: seq<int>, x: int, m: multiset<int>) returns (i: nat)
    requires x in m && m <= multiset(s)
    ensures i < |s| && s[i] == x && m - multiset{x} <= multiset(Without(s, i))
  {
    hide Without;
    assert x in multiset(s);
    i :| i < |s| && s[i] == x;
    var r := Without(s, i);
    WithoutMember(s, i);
  }

  lemma {:induction false} InOrder(s: seq<int>, t: Triple, i: nat, j: nat, k: nat)
    requires Up(s) && i < |s| && j < |s| && k < |s| && i != j && i != k && j != k
    requires t == Triple(s[i], s[j], s[k]) && t.a <= t.b <= t.c && t.a + t.b + t.c == 0
    ensures Before(s, t, |s|)
  {
    if j < i {
      InOrder(s, t, j, i, k);
    } else if k < j {
      InOrder(s, t, i, k, j);
    } else {
      assert At(s, t, i, j, k);
    }
  }

  /** The triples in `ans` are in ascending order of their first two members. */
  ghost predicate Ascending(ans: seq<Triple>) {
    forall i, j :: 0 <= i < j < |ans| ==> ans[i].a < ans[j].a || (ans[i].a == ans[j].a && ans[i].b < ans[j].b)
  }

  /** `ans` holds the triples from before `first`, and those from `first` with a second
      member from before `second`, and no others. */
  ghost predicate Collected(s: seq<int>, ans: seq<Triple>, first: nat, second: nat) {
    forall t :: t in ans <==> Before(s, t, first) || Between(s, t, first, second)
  }

  /** Every sum from `first` and `second` with a member after `third` is positive. */
  ghost predicate Above(s: seq<int>, first: nat, second: nat, third: nat) {
    forall k :: third < k < |s| && first < |s| && second < |s| ==> s[second] + s[k] + s[first] > 0
  }

  /** What is known of `third` from the second members tried: none was, or the last one
      that was not skipped, prev, is before it and after it sums with prev are positive. */
  ghost predicate Tried(s: seq<int>, first: nat, prev: nat, second: nat, third: nat) {
    || third == |s| - 1
    || (first < prev < third < |s| && prev < second && Above(s, first, prev, third))
  }

  /** A second member that equals the one before it adds no triple. */
  lemma {:induction false} SkipSecond(s: seq<int>, ans: seq<Triple>, first: nat, second: nat)
    requires Collected(s, ans, first, second) && first + 1 < second < |s| && s[second] == s[second - 1]
    ensures Collected(s, ans, first, second + 1)
  {
    forall t
      ensures Between(s, t, first, second + 1) <==> Between(s, t, first, second)
    {
      if Between(s, t, first, second + 1) {
        var j: nat, k: nat :| j < second + 1 && At(s, t, first, j, k);
        if j == second {
          assert At(s, t, first, second - 1, k);
        }
      }
    }
  }

  /** Nor does a first one. */
  lemma {:induction false} SkipFirst(s: seq<int>, ans: seq<Triple>, first: nat)
    requires Collected(s, ans, first, first) && 0 < first < |s| && s[first] == s[first - 1]
    ensures Collected(s, ans, first + 1, first + 1)
  {
    forall t
      ensures !Between(s, t, first, first) && !Between(s, t, first + 1, first + 1)
      ensures Before(s, t, first + 1) <==> Before(s, t, first)
    {
      if Before(s, t, first + 1) {
        var i: nat, j: nat, k: nat :| i < first + 1 && At(s, t, i, j, k);
        if i == first {
          assert At(s, t, first - 1, j, k);
        }
      }
    }
  }

  /** When the search from `first` is over its triples count as found before the next one. */
  lemma {:induction false} FirstDone(s: seq<int>, ans: seq<Triple>, first: nat)
    requires Collected(s, ans, first, |s|)
    ensures Collected(s, ans, first + 1, first + 1)
  {
  }

  /** When third has met second no later second member has a triple. */
  lemma {:induction false} Met(s: seq<int>, ans: seq<Triple>, first: nat, second: nat)
    requires Up(s) && second < |s| && Collected(s, ans, first, second) && Above(s, first, second, second)
    ensures Collected(s, ans, first, |s|)
  {
  }

  /** The triples of one second member: one if the sum at third is zero, and otherwise none. */
  lemma {:induction false} OneSecond(s: seq<int>, ans: seq<Triple>, first: nat, second: nat, third: nat)
    requires Up(s) && Collected(s, ans, first, second) && first < second < third < |s|
    requires Above(s, first, second, third) && s[second] + s[third] + s[first] <= 0
    ensures Collected(s,
      if s[second] + s[third] + s[first] == 0 then ans + [Triple(s[first], s[second], s[third])] else ans,
      first, second + 1)
  {
    var sum := s[second] + s[third] + s[first];
    var hit := Triple(s[first], s[second], s[third]);
    forall t
      ensures Between(s, t, first, second + 1) <==> Between(s, t, first, second) || (sum == 0 && t == hit)
    {
      if Between(s, t, first, second + 1) {
        var j: nat, k: nat :| j < second + 1 && At(s, t, first, j, k);
        if j == second && k <= third {
          assert s[k] <= s[third];
        }
      }
      if sum == 0 && t == hit {
        assert At(s, t, first, second, third);
      }
    }
  }

  /** Past third, where a skipped duplicate can put second, there is no triple, and the
      sum at third is positive. */
  lemma {:induction false} Passed(s: seq<int>, ans: seq<Triple>, first: nat, prev: nat, second: nat, third: nat)
    requires Up(s) && Collected(s, ans, first, second) && third < second < |s| && Tried(s, first, prev, second, third)
    ensures Collected(s, ans, first, second + 1) && s[second] + s[third] + s[first] > 0
  {
  }

  /** A triple with a new pair of first two members goes last. */
  lemma {:induction false} Ascends(s: seq<int>, ans: seq<Triple>, first: nat, second: nat, third: nat)
    requires Up(s) && Collected(s, ans, first, second) && Ascending(ans) && first < second < |s| && third < |s|
    requires first == 0 || s[first - 1] < s[first]
    requires second == first + 1 || s[second - 1] < s[second]
    ensures Ascending(ans + [Triple(s[first], s[second], s[third])])
  {
    forall t | t in ans
      ensures t.a < s[first] || (t.a == s[first] && t.b < s[second])
    {
      if Before(s, t, first) {
        var i: nat, j: nat, k: nat :| i < first && At(s, t, i, j, k);
        assert s[i] <= s[first - 1];
      } else {
        var j: nat, k: nat :| j < second && At(s, t, first, j, k);
        assert s[j] <= s[second - 1];
      }
    }
  }

  lemma {:induction false} NoneYet(s: seq<int>)
    ensures Collected(s, [], 0, 0) && Ascending([])
  {
  }

  lemma {:induction false} FromNext(s: seq<int>, ans: seq<Triple>, first: nat)
    requires Collected(s, ans, first, first)
    ensures Collected(s, ans, first, first + 1)
  {
  }

  /** Going down past a positive sum. */
  lemma {:induction false} OneDown(s: seq<int>, first: nat, second: nat, third: nat)
    requires first < |s| && second < third < |s|
    requires Above(s, first, second, third) && s[second] + s[third] + s[first] > 0
    ensures Above(s, first, second, third - 1)
  {
  }

  lemma {:induction false} StillAbove(s: seq<int>, first: nat, prev: nat, second: nat, third: nat)
    requires Up(s) && Tried(s, first, prev, second, third) && second < |s|
    ensures Above(s, first, second, third)
  {
  }

  lemma {:induction false} NoneTried(s: seq<int>, first: nat, prev: nat, second: nat)
    requires first < |s|
    ensures Tried(s, first, prev, second, |s| - 1)
  {
  }

  lemma {:induction false} TriedOn(s: seq<int>, first: nat, prev: nat, second: nat, third: nat)
    requires Tried(s, first, prev, second, third)
    ensures Tried(s, first, prev, second + 1, third)
  {
  }

  lemma {:induction false} TriedOne(s: seq<int>, first: nat, second: nat, third: nat)
    requires first < second < third < |s| && Above(s, first, second, third)
    ensures Tried(s, first, second, second + 1, third)
  {
  }

  lemma {:induction false} NotBefore(s: seq<int>, i: nat)
    requires Up(s) && i < |s|
    ensures 0 < i ==> s[i - 1] <= s[i]
  {
  }

  lemma {:induction false} AllCollected(s: seq<int>, ans: seq<Triple>)
    requires Up(s) && Collected(s, ans, |s|, |s|)
    ensures forall t :: t in ans <==> ZeroSum(s, t)
  {
    forall t
      ensures t in ans <==> ZeroSum(s, t)
    {
      InPlaces(s, t);
      assert !Between(s, t, |s|, |s|);
    }
  }

  /** The triples from `first`, which is not a duplicate, added to those from before it. */
  method SearchFrom(nums: array<int>, first: nat, found: seq<Triple>) returns (ans: seq<Triple>)
    requires Up(nums[..]) && first < nums.Length && (first == 0 || nums[first - 1] < nums[first])
    requires Collected(nums[..], found, first, first) && Ascending(found)
    ensures Collected(nums[..], ans, first, nums.Length) && Ascending(ans)
  {
    hide Up, Collected, Ascending, Above, Tried;
    ghost var s := nums[..];
    ans := found;
    var n := nums.Length;
    var third: nat, second: nat := n - 1, first + 1;
    ghost var prev := first;
    FromNext(s, ans, first);
    NoneTried(s, first, prev, second);
    while second < n
      invariant first < second <= n && third < n && s == nums[..]
      invariant Collected(s, ans, first, second) && Ascending(ans)
      invariant Tried(s, first, prev, second, third)
    {
      if second > first + 1 && nums[second] == nums[second - 1] {
        SkipSecond(s, ans, first, second);
        TriedOn(s, first, prev, second, third);
        second := second + 1;
        continue;
      }
      StillAbove(s, first, prev, second, third);
      ghost var start := third;
      while second < third
        invariant third < n && Above(s, first, second, third)
        invariant second <= third || third == start
      {
        if nums[second] + nums[third] + nums[first] > 0 {
          OneDown(s, first, second, third);
          third := third - 1;
        } else {
          break;
        }
      }
      if second == third {
        Met(s, ans, first, second);
        return;
      }
      if second < third {
        OneSecond(s, ans, first, second, third);
        prev := second;
        TriedOne(s, first, second, third);
      } else {
        Passed(s, ans, first, prev, second, third);
        TriedOn(s, first, prev, second, third);
      }
      if nums[second] + nums[third] + nums[first] == 0 {
        NotBefore(s, second);
        Ascends(s, ans, first, second, third);
        ans := ans + [Triple(nums[first], nums[second], nums[third])];
      }
      second := second + 1;
    }
  }

  method Search(nums: array<int>) returns (ans: seq<Triple>)
    requires Up(nums[..])
    ensures forall t :: t in ans <==> ZeroSum(nums[..], t)
    ensures Ascending(ans)
  {
    hide Up, Collected, Ascending, ZeroSum;
    ghost var s := nums[..];
    ans := [];
    NoneYet(s);
    for first := 0 to nums.Length
      invariant s == nums[..]
      invariant Collected(s, ans, first, first) && Ascending(ans)
    {
      NotBefore(s, first);
      if first > 0 && nums[first] == nums[first - 1] {
        SkipFirst(s, ans, first);
        continue;
      }
      ans := SearchFrom(nums, first, ans);
      FirstDone(s, ans, first);
    }
    AllCollected(s, ans);
  }

  method Sort(nums: array<int>)
    modifies nums
    ensures nums[..] == Sorted(old(nums[..]))
  {
    var sorted := Sorted(nums[..]);
    forall i | 0 <= i < nums.Length {
      nums[i] := sorted[i];
    }
  }

  /** Exactly the triples of members of the list that sum to zero, each once and sorted. */
  method ThreeSum(nums: array<int>) returns (ans: seq<Triple>)
    modifies nums
    ensures nums[..] == Sorted(old(nums[..]))
    ensures forall t :: t in ans <==> ZeroSum(old(nums[..]), t)
    ensures Ascending(ans)
  {
    SortedUp(nums[..]);
    Sort(nums);
    ans := Search(nums);
  }

  /** On a copy: the answer depends on the members only, and not on their order. */
  method Answer(members: seq<int>) returns (ans: seq<Triple>)
    ensures forall t :: t in ans <==> ZeroSum(members, t)
    ensures Ascending(ans)
  {
    var nums := new int[|members|](i requires 0 <= i < |members| => members[i]);
    assert nums[..] == members;
    ans := ThreeSum(nums);
  }

  /** A list that ascends is fixed by what it holds, so this is the only such answer. */
  lemma {:induction false} OneAnswer(x: seq<Triple>, y: seq<Triple>)
    requires Ascending(x) && Ascending(y) && forall t :: t in x <==> t in y
    ensures x == y
  {
    if x != [] { FirstIn(x); }
    if y != [] { FirstIn(y); }
    if x != [] {
      assert x[0] == y[0];
      forall t
        ensures t in x[1..] <==> t in y[1..]
      {
        assert t in x[1..] <==> t in x && t != x[0];
        assert t in y[1..] <==> t in y && t != y[0];
      }
      OneAnswer(x[1..], y[1..]);
      assert x == [x[0]] + x[1..] && y == [y[0]] + y[1..];
    }
  }

  lemma {:induction false} FirstIn(x: seq<Triple>)
    requires x != []
    ensures x[0] in x
  {
  }
}
