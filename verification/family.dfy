/** The parent links and children lists that chardev's ioctls rearrange, as values: what a
    sequence of SET_PARENT calls does to them, when it keeps them a forest, and whom an
    EMERGENCY signals. Tasks are named by their pids. */
module Family {

  datatype Family = Family(parent: map<int, int>, kids: map<int, seq<int>>)

  ghost predicate Distinct(s: seq<int>) {
    forall i, j :: 0 <= i < j < |s| ==> s[i] != s[j]
  }

  /** Every task has a children list; a task is in the list of its parent, once, and in no
      other. */
  ghost predicate Sound(f: Family) {
    && (forall p {:trigger f.kids[p]} :: p in f.kids ==> Distinct(f.kids[p]))
    && (forall p, c {:trigger c in f.kids[p]} :: p in f.kids && c in f.kids[p] ==>
          c in f.kids && c in f.parent && f.parent[c] == p)
    && (forall c :: c in f.parent ==> f.parent[c] in f.kids && c in f.kids[f.parent[c]])
  }

  function Without(s: seq<int>, c: int): (r: seq<int>) {
    if s == [] then [] else
      (if s[0] == c then [] else [s[0]]) + Without(s[1..], c)
  }

  lemma {:induction false} WithoutFacts(s: seq<int>, c: int)
    ensures forall x :: x in Without(s, c) <==> x in s && x != c
    ensures Distinct(s) ==> Distinct(Without(s, c))
  {
    if s != [] {
      WithoutFacts(s[1..], c);
      assert forall x :: x in s <==> x == s[0] || x in s[1..];
      if Distinct(s) {
        assert Distinct(s[1..]);
        assert s[0] !in s[1..];
      }
    }
  }

  lemma DistinctCons(c: int, s: seq<int>)
    requires Distinct(s) && c !in s
    ensures Distinct([c] + s)
  {
  }

  /** A SET_PARENT by task c with target t. A target that does not exist changes nothing. */
  function SetParent(f: Family, c: int, t: int): Family
    requires Sound(f) && c in f.parent
  {
    if t !in f.kids then f else
      var kids := f.kids[f.parent[c] := Without(f.kids[f.parent[c]], c)];
      Family(f.parent[c := t], kids[t := [c] + kids[t]])
  }

  /** SET_PARENT conserves the tasks and keeps every task in exactly its parent's list; the
      caller comes first in its new list, and all other tasks keep their parent. */
  lemma {:induction false} SetParentSound(f: Family, c: int, t: int)
    requires Sound(f) && c in f.parent
    ensures var g := SetParent(f, c, t);
            && Sound(g) && g.kids.Keys == f.kids.Keys && g.parent.Keys == f.parent.Keys
            && (t in f.kids ==> g.parent[c] == t && g.kids[t][0] == c)
            && (forall x :: x in f.parent && (x != c || t !in f.kids) ==> g.parent[x] == f.parent[x])
  {
    hide Without, Distinct;
    if t in f.kids {
      var p := f.parent[c];
      WithoutFacts(f.kids[p], c);
      var g := SetParent(f, c, t);
      DistinctCons(c, if t == p then Without(f.kids[p], c) else f.kids[t]);
      assert forall q :: q in g.kids ==> Distinct(g.kids[q]);
      forall q | q in g.kids
        ensures forall x :: x in g.kids[q] <==> if x == c then q == t else x in f.kids[q]
      {
      }
    }
  }

  // ---------- Ancestors and cycles ----------

  datatype Option<T> = None | Some(value: T)

  /** The n-th ancestor along the parent links, where there is one. */
  function Up(parent: map<int, int>, x: int, n: nat): Option<int>
    decreases n
  {
    if n == 0 then Some(x)
    else if x in parent then Up(parent, parent[x], n - 1)
    else None
  }

  ghost predicate Acyclic(f: Family) {
    forall x, n: nat {:trigger Up(f.parent, x, n)} :: n > 0 ==> Up(f.parent, x, n) != Some(x)
  }

  /** t is c or below it. */
  ghost predicate InSubtree(f: Family, c: int, t: int) {
    exists n: nat :: Up(f.parent, t, n) == Some(c)
  }

  lemma {:induction false} UpAdd(parent: map<int, int>, x: int, m: nat, n: nat)
    ensures Up(parent, x, m + n) ==
            match Up(parent, x, m) case None => None case Some(y) => Up(parent, y, n)
    decreases m
  {
    if m != 0 && x in parent {
      UpAdd(parent, parent[x], m - 1, n);
    }
  }

  /** Links that differ at c only lead to the same ancestors until they come to c. */
  lemma {:induction false} SameUntil(a: map<int, int>, b: map<int, int>, c: int, x: int, n: nat)
    requires forall y :: y != c ==> (y in a <==> y in b) && (y in a ==> a[y] == b[y])
    requires forall k: nat :: k < n ==> Up(a, x, k) != Some(c)
    ensures Up(a, x, n) == Up(b, x, n)
    decreases n
  {
    if n != 0 {
      assert Up(a, x, 0) == Some(x);
      if x in a {
        forall k: nat | k < n - 1
          ensures Up(a, a[x], k) != Some(c)
        {
          assert Up(a, x, k + 1) == Up(a, a[x], k);
        }
        SameUntil(a, b, c, a[x], n - 1);
      }
    }
  }

  lemma {:induction false} FirstHit(a: map<int, int>, x: int, c: int, n: nat) returns (m: nat)
    requires Up(a, x, n) == Some(c)
    ensures m <= n && Up(a, x, m) == Some(c) && forall k: nat :: k < m ==> Up(a, x, k) != Some(c)
    decreases n
  {
    if k: nat :| k < n && Up(a, x, k) == Some(c) {
      m := FirstHit(a, x, c, k);
    } else {
      m := n;
    }
  }

  /** A cycle after the call comes through the caller. */
  lemma NewCycleThroughCaller(f: Family, c: int, t: int, x: int, n: nat)
    requires Sound(f) && Acyclic(f) && c in f.parent && t in f.kids && n > 0
    requires Up(SetParent(f, c, t).parent, x, n) == Some(x)
    ensures InSubtree(f, c, t)
  {
    var a, b := f.parent, SetParent(f, c, t).parent;
    if k: nat :| k < n && Up(b, x, k) == Some(c) {
      UpAdd(b, x, n, k);
      UpAdd(b, x, k, n);
      assert Up(b, c, n) == Some(c);
      assert Up(b, t, n - 1) == Some(c);
      var m := FirstHit(b, t, c, n - 1);
      SameUntil(b, a, c, t, m);
    } else {
      SameUntil(b, a, c, x, n);
    }
  }

  /** A call into the caller's own subtree closes a cycle. */
  lemma OwnSubtreeCloses(f: Family, c: int, t: int)
    requires Sound(f) && c in f.parent && t in f.kids && InSubtree(f, c, t)
    ensures !Acyclic(SetParent(f, c, t))
  {
    var a, b := f.parent, SetParent(f, c, t).parent;
    var n: nat :| Up(a, t, n) == Some(c);
    var m := FirstHit(a, t, c, n);
    SameUntil(a, b, c, t, m);
    assert Up(b, c, m + 1) == Some(c);
  }

  /** MAIN RESULT. A SET_PARENT keeps the parent links acyclic exactly when its target is not
      in the caller's own subtree. */
  lemma {:induction false} AcyclicStep(f: Family, c: int, t: int)
    requires Sound(f) && Acyclic(f) && c in f.parent && t in f.kids
    ensures Acyclic(SetParent(f, c, t)) <==> !InSubtree(f, c, t)
  {
    if InSubtree(f, c, t) {
      OwnSubtreeCloses(f, c, t);
    } else if !Acyclic(SetParent(f, c, t)) {
      var x, n: nat :| n > 0 && Up(SetParent(f, c, t).parent, x, n) == Some(x);
      NewCycleThroughCaller(f, c, t, x, n);
    }
  }

  // ---------- Sequences of calls ----------

  datatype Call = Call(caller: int, target: int)

  ghost predicate CallersExist(f: Family, calls: seq<Call>) {
    forall i :: 0 <= i < |calls| ==> calls[i].caller in f.parent
  }

  function Run(f: Family, calls: seq<Call>): (g: Family)
    requires Sound(f) && CallersExist(f, calls)
    ensures Sound(g) && g.kids.Keys == f.kids.Keys && g.parent.Keys == f.parent.Keys
  {
    if calls == [] then f else
      var g := Run(f, calls[..|calls| - 1]);
      SetParentSound(g, calls[|calls| - 1].caller, calls[|calls| - 1].target);
      SetParent(g, calls[|calls| - 1].caller, calls[|calls| - 1].target)
  }

  /** The k-th call names an existing task in its caller's own subtree. */
  ghost predicate Closes(f: Family, calls: seq<Call>, k: nat)
    requires Sound(f) && CallersExist(f, calls) && k < |calls|
  {
    calls[k].target in f.kids && InSubtree(Run(f, calls[..k]), calls[k].caller, calls[k].target)
  }

  ghost predicate AcyclicThroughout(f: Family, calls: seq<Call>)
    requires Sound(f) && CallersExist(f, calls)
  {
    forall k {:trigger calls[..k]} :: 0 <= k <= |calls| ==> Acyclic(Run(f, calls[..k]))
  }

  lemma StepAt(f: Family, calls: seq<Call>, k: nat)
    requires Sound(f) && CallersExist(f, calls) && k < |calls| && Acyclic(Run(f, calls[..k]))
    ensures Acyclic(Run(f, calls[..k + 1])) <==> !Closes(f, calls, k)
  {
    hide Acyclic, InSubtree, Sound, SetParent, Run;
    var g := Run(f, calls[..k]);
    var c, t := calls[k].caller, calls[k].target;
    RunStep(f, calls, k);
    NoTarget(g, c, t);
    if t in f.kids {
      AcyclicStep(g, c, t);
    }
  }

  lemma RunStep(f: Family, calls: seq<Call>, k: nat)
    requires Sound(f) && CallersExist(f, calls) && k < |calls|
    ensures Run(f, calls[..k + 1]) == SetParent(Run(f, calls[..k]), calls[k].caller, calls[k].target)
  {
    hide Sound, SetParent;
    var now := calls[..k + 1];
    assert now[..|now| - 1] == calls[..k] && now[|now| - 1] == calls[k];
  }

  lemma NoTarget(f: Family, c: int, t: int)
    requires Sound(f) && c in f.parent
    ensures t !in f.kids ==> SetParent(f, c, t) == f
  {
  }

  lemma {:induction false} AcyclicUpTo(f: Family, calls: seq<Call>, k: nat)
    requires Sound(f) && Acyclic(f) && CallersExist(f, calls) && k <= |calls|
    requires forall j: nat :: j < k ==> !Closes(f, calls, j)
    ensures Acyclic(Run(f, calls[..k]))
  {
    hide Acyclic, Closes;
    if k == 0 {
      assert calls[..0] == [];
    } else {
      AcyclicUpTo(f, calls, k - 1);
      StepAt(f, calls, k - 1);
    }
  }

  /** MAIN RESULT. Over any sequence of calls the parent links stay a forest throughout exactly
      when no call targets a task in its caller's own subtree. */
  lemma {:induction false} ForestThroughout(f: Family, calls: seq<Call>)
    requires Sound(f) && Acyclic(f) && CallersExist(f, calls)
    ensures AcyclicThroughout(f, calls) <==> forall k: nat :: k < |calls| ==> !Closes(f, calls, k)
  {
    hide Acyclic, Closes, Run;
    if AcyclicThroughout(f, calls) {
      forall k: nat | k < |calls|
        ensures !Closes(f, calls, k)
      {
        assert Acyclic(Run(f, calls[..k])) && Acyclic(Run(f, calls[..k + 1]));
        StepAt(f, calls, k);
      }
    }
    if forall k: nat :: k < |calls| ==> !Closes(f, calls, k) {
      forall k: nat | k <= |calls|
        ensures Acyclic(Run(f, calls[..k]))
      {
        AcyclicUpTo(f, calls, k);
      }
    }
  }

  /** The target of the last successful call of a task, if it made any. */
  function LastTarget(f: Family, calls: seq<Call>, c: int): Option<int> {
    if calls == [] then None
    else if calls[|calls| - 1].caller == c && calls[|calls| - 1].target in f.kids
      then Some(calls[|calls| - 1].target)
    else LastTarget(f, calls[..|calls| - 1], c)
  }

  /** The signals of an EMERGENCY on p, in order: the children as listed, then p itself. */
  function Signals(f: Family, p: int): seq<int>
    requires p in f.kids
  {
    f.kids[p] + [p]
  }

  lemma {:induction false} ParentIsLastTarget(f: Family, calls: seq<Call>, c: int)
    requires Sound(f) && CallersExist(f, calls) && c in f.parent
    ensures Run(f, calls).parent[c] ==
            match LastTarget(f, calls, c) case Some(t) => t case None => f.parent[c]
  {
    if calls != [] {
      var init, last := calls[..|calls| - 1], calls[|calls| - 1];
      ParentIsLastTarget(f, init, c);
      SetParentSound(Run(f, init), last.caller, last.target);
    }
  }

  /** MAIN RESULT. After any sequence of calls, an EMERGENCY on p signals, before p, exactly the
      tasks whose last successful SET_PARENT named p, and those of p's original children that
      never made one; each once. */
  lemma {:induction false} EmergencySignals(f: Family, calls: seq<Call>, p: int)
    requires Sound(f) && CallersExist(f, calls) && p in f.kids
    ensures var g := Run(f, calls);
            var s := Signals(g, p);
            && s[|s| - 1] == p && Distinct(s[..|s| - 1])
            && forall c :: c in s[..|s| - 1] <==>
                 c in f.parent && (match LastTarget(f, calls, c)
                                   case Some(t) => t == p
                                   case None => c in f.kids[p])
  {
    var g := Run(f, calls);
    var s := Signals(g, p);
    assert s[..|s| - 1] == g.kids[p];
    forall c
      ensures c in g.kids[p] <==> c in f.parent && (match LastTarget(f, calls, c)
                                                    case Some(t) => t == p
                                                    case None => c in f.kids[p])
    {
      if c in f.parent {
        ParentIsLastTarget(f, calls, c);
      }
    }
  }
}
