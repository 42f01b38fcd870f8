/** In what order an EMERGENCY signals the children of its target: the one adopted last comes
    first, and those that never moved come last, in their original order. */
module FamilyOrder {
  import opened Family

  /** The last successful call of a task, by its number in the sequence. */
  function LastCall(f: Family, calls: seq<Call>, c: int): (r: Option<nat>)
    ensures r.Some? ==> r.value < |calls|
  {
    if calls == [] then None
    else if calls[|calls| - 1].caller == c && calls[|calls| - 1].target in f.kids then Some(|calls| - 1)
    else LastCall(f, calls[..|calls| - 1], c)
  }

  function Place(s: seq<int>, c: int): nat {
    if s == [] || s[0] == c then 0 else 1 + Place(s[1..], c)
  }

  /** Small for tasks that are signalled early. */
  function Rank(f: Family, calls: seq<Call>, p: int, c: int): (r: int)
    requires p in f.kids
    ensures r >= -|calls|
  {
    match LastCall(f, calls, c)
    case Some(k) => -1 - k
    case None => Place(f.kids[p], c)
  }

  ghost predicate InOrder(f: Family, calls: seq<Call>, p: int, s: seq<int>)
    requires p in f.kids
  {
    forall i, j :: 0 <= i < j < |s| ==> Rank(f, calls, p, s[i]) < Rank(f, calls, p, s[j])
  }

  lemma {:induction false} PlaceAt(s: seq<int>, i: nat)
    requires Distinct(s) && i < |s|
    ensures Place(s, s[i]) == i
  {
    if i > 0 {
      assert s[0] != s[i];
      PlaceAt(s[1..], i - 1);
    }
  }

  lemma {:induction false} WithoutInOrder(f: Family, calls: seq<Call>, p: int, s: seq<int>, c: int)
    requires p in f.kids && InOrder(f, calls, p, s)
    ensures InOrder(f, calls, p, Without(s, c))
  {
    hide Rank;
    if s != [] {
      WithoutInOrder(f, calls, p, s[1..], c);
      WithoutFacts(s[1..], c);
      var rest := Without(s[1..], c);
      forall j | 0 <= j < |rest|
        ensures Rank(f, calls, p, s[0]) < Rank(f, calls, p, rest[j])
      {
        assert rest[j] in rest;
        var k :| 0 <= k < |s[1..]| && s[1..][k] == rest[j];
        assert s[k + 1] == rest[j];
      }
    }
  }

  /** A call changes the rank of its caller only. */
  lemma RankStep(f: Family, calls: seq<Call>, p: int, x: int)
    requires p in f.kids && calls != []
    ensures var last := calls[|calls| - 1];
            Rank(f, calls, p, x) == if last.caller == x && last.target in f.kids then -|calls|
                                    else Rank(f, calls[..|calls| - 1], p, x)
  {
  }

  /** The list of p after one more call. */
  lemma ListStep(g: Family, c: int, t: int, p: int)
    requires Sound(g) && c in g.parent && t in g.kids && p in g.kids
    ensures var s := if p == g.parent[c] then Without(g.kids[p], c) else g.kids[p];
            && c !in s
            && SetParent(g, c, t).kids[p] == if p == t then [c] + s else s
  {
    WithoutFacts(g.kids[p], c);
  }

  /** MAIN RESULT. After any sequence of calls every children list, and with it the order of an
      EMERGENCY's signals, is sorted by the last successful calls, the latest first; behind
      these come the tasks that never moved, as they stood at first. */
  lemma {:induction false} LatestFirst(f: Family, calls: seq<Call>, p: int)
    requires Sound(f) && CallersExist(f, calls) && p in f.kids
    ensures InOrder(f, calls, p, Run(f, calls).kids[p])
  {
    hide Rank, SetParent, Without;
    if calls == [] {
      Original(f, p);
    } else {
      var init, last := calls[..|calls| - 1], calls[|calls| - 1];
      var g := Run(f, init);
      var c, t := last.caller, last.target;
      var was := g.kids[p];
      LatestFirst(f, init, p);
      RunStep(f, calls, |init|);
      assert calls[..|calls|] == calls;
      forall x
        ensures Rank(f, calls, p, x) == if c == x && t in f.kids then -|calls| else Rank(f, init, p, x)
      {
        RankStep(f, calls, p, x);
      }
      if t in f.kids {
        ListStep(g, c, t, p);
        WithoutInOrder(f, init, p, was, c);
        OrderKept(f, calls, p, if p == g.parent[c] then Without(was, c) else was, c);
      } else {
        NoTarget(g, c, t);
      }
    }
  }

  lemma Original(f: Family, p: int)
    requires Sound(f) && p in f.kids
    ensures InOrder(f, [], p, f.kids[p])
  {
    forall i | 0 <= i < |f.kids[p]|
      ensures Rank(f, [], p, f.kids[p][i]) == i
    {
      PlaceAt(f.kids[p], i);
    }
  }

  /** A list without the caller stays in order, also with the caller put first. */
  lemma OrderKept(f: Family, calls: seq<Call>, p: int, s: seq<int>, c: int)
    requires p in f.kids && calls != [] && c !in s && InOrder(f, calls[..|calls| - 1], p, s)
    requires forall x :: Rank(f, calls, p, x) == if c == x then -|calls| else Rank(f, calls[..|calls| - 1], p, x)
    ensures InOrder(f, calls, p, s) && InOrder(f, calls, p, [c] + s)
  {
    hide Rank;
    forall j | 0 <= j < |s|
      ensures Rank(f, calls, p, c) < Rank(f, calls, p, s[j])
    {
      assert s[j] != c;
    }
  }
}
