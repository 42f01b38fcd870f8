/** chardev's ioctls on the kernel's own structures: circular intrusive lists through the
    list heads inside each task, changed in place, and parent pointers. Every call is proved
    to do to the tasks what Family says. */
module Reparent {
  import opened Family

  /** A list_head inside a task; owner is what container_of finds. */
  class ListHead {
    const owner: int
    var next: ListHead?
    var prev: ListHead?

    constructor (owner: int)
      ensures this.owner == owner
    {
      this.owner := owner;
      next, prev := null, null;
    }
  }

  class Task {
    const pid: int
    const sibling: ListHead
    const children: ListHead
    var parent: Task?
    var realParent: Task?

    constructor (pid: int, sibling: ListHead, children: ListHead)
      ensures this.pid == pid && this.sibling == sibling && this.children == children
    {
      this.pid, this.sibling, this.children := pid, sibling, children;
      parent, realParent := null, null;
    }
  }

  // ---------- Circular lists ----------

  /** Names one object where a frame needs its type. */
  function Only<T(==)>(x: T): set<T> {
    {x}
  }

  function Succ(i: nat, n: nat): (j: nat)
    requires i < n
    ensures j < n
  {
    if i + 1 == n then 0 else i + 1
  }

  /** The heads of r, in order, form one circular list. */
  ghost predicate Ring(r: seq<ListHead>)
    reads r
  {
    && |r| > 0
    && (forall i, j :: 0 <= i < j < |r| ==> r[i] != r[j])
    && (forall i :: 0 <= i < |r| ==> r[i].next == r[Succ(i, |r|)])
    && (forall i :: 0 <= i < |r| ==> r[Succ(i, |r|)].prev == r[i])
  }

  function Cut<T>(s: seq<T>, i: nat): seq<T>
    requires i < |s|
  {
    s[..i] + s[i + 1..]
  }

  /** list_del_rcu: the entry forgets its predecessor and keeps its successor. */
  method ListDel(e: ListHead, ghost r: seq<ListHead>, ghost i: nat)
    requires Ring(r) && 0 < i < |r| && r[i] == e
    modifies e`prev, Only(r[i - 1])`next, Only(r[Succ(i, |r|)])`prev
    ensures Ring(Cut(r, i))
    ensures e.prev == null && e.next == old(e.next)
  {
    var next, prev := e.next, e.prev;
    ghost var s, n := Cut(r, i), |r|;
    assert next == r[Succ(i, n)];
    assert prev == r[i - 1] by {
      assert Succ(i - 1, n) == i;
    }
    next.prev := prev;
    prev.next := next;
    e.prev := null;
    forall k | 0 <= k < |s|
      ensures s[k].next == s[Succ(k, |s|)] && s[Succ(k, |s|)].prev == s[k]
    {
      ghost var m := if k < i then k else k + 1;
      assert s[k] == r[m];
      if k == i - 1 {
        assert s[Succ(k, |s|)] == r[Succ(i, n)];
      } else {
        assert s[Succ(k, |s|)] == r[Succ(m, n)];
        assert old(r[m].next) == r[Succ(m, n)] && old(r[Succ(m, n)].prev) == r[m];
      }
    }
  }

  /** list_add_rcu: the entry becomes the first after the head. */
  method ListAdd(e: ListHead, head: ListHead, ghost r: seq<ListHead>)
    requires Ring(r) && r[0] == head && e !in r
    modifies e`next, e`prev, head`next, Only(r[Succ(0, |r|)])`prev
    ensures Ring([head, e] + r[1..])
  {
    var next := head.next;
    e.next := next;
    e.prev := head;
    head.next := e;
    next.prev := e;
    ghost var s := [head, e] + r[1..];
    forall k | 0 <= k < |s|
      ensures s[k].next == s[Succ(k, |s|)] && s[Succ(k, |s|)].prev == s[k]
    {
      if k >= 2 {
        assert s[k] == r[k - 1] && s[Succ(k, |s|)] == r[Succ(k - 1, |r|)];
        assert old(r[k - 1].next) == r[Succ(k - 1, |r|)] && old(r[Succ(k - 1, |r|)].prev) == r[k - 1];
      }
    }
  }

  /** list_for_each with list_entry: the owners of the heads behind the first. */
  method ListOwners(head: ListHead, ghost r: seq<ListHead>, ghost owners: seq<int>) returns (found: seq<int>)
    requires Ring(r) && r[0] == head && |r| == |owners| + 1
    requires forall n :: 0 <= n < |owners| ==> r[n + 1].owner == owners[n]
    ensures found == owners
  {
    found := [];
    var lst := head.next;
    while lst != head
      invariant |found| <= |owners| && found == owners[..|found|]
      invariant lst == r[Succ(|found|, |r|)]
      decreases |owners| - |found|
    {
      ghost var n := |found|;
      assert r[n + 1].next == r[Succ(n + 1, |r|)];
      found := found + [lst.owner];
      lst := lst.next;
    }
  }

  // ---------- The tasks ----------

  datatype Outcome = Done | EFAULT | ESRCH | EINVAL

  /** The list heads of each task are its own. */
  ghost predicate OwnHeads(tasks: map<int, Task>) {
    forall p :: p in tasks ==>
      && tasks[p].pid == p
      && tasks[p].sibling.owner == p && tasks[p].children.owner == p
      && tasks[p].sibling != tasks[p].children
  }

  function HeadsOf(tasks: map<int, Task>): set<ListHead> {
    (set p | p in tasks :: tasks[p].sibling) + (set p | p in tasks :: tasks[p].children)
  }

  ghost predicate Known(tasks: map<int, Task>, ks: seq<int>) {
    forall i :: 0 <= i < |ks| ==> ks[i] in tasks
  }

  /** Lists of existing tasks, no task in two of them or twice in one. */
  ghost predicate GoodKids(tasks: map<int, Task>, kids: map<int, seq<int>>) {
    && kids.Keys == tasks.Keys
    && (forall p {:trigger kids[p]} :: p in kids ==> Known(tasks, kids[p]) && Distinct(kids[p]))
    && (forall p, q, c {:trigger c in kids[p], c in kids[q]} ::
          p in kids && q in kids && c in kids[p] && c in kids[q] ==> p == q)
  }

  /** The lists without the i-th child of p. */
  function Shorter(kids: map<int, seq<int>>, p: int, i: nat): (r: map<int, seq<int>>)
    requires p in kids && i < |kids[p]|
    ensures r.Keys == kids.Keys
  {
    kids[p := Cut(kids[p], i)]
  }

  /** The lists with c first on that of t. */
  function Longer(kids: map<int, seq<int>>, t: int, c: int): (r: map<int, seq<int>>)
    requires t in kids
    ensures r.Keys == kids.Keys
  {
    kids[t := [c] + kids[t]]
  }

  /** The task is on no children list. */
  ghost predicate Unlisted(tasks: map<int, Task>, kids: map<int, seq<int>>, c: int)
    requires kids.Keys == tasks.Keys
  {
    forall q :: q in tasks ==> c !in kids[q]
  }

  /** The heads on the circular list of p's children: p's own, then each child's sibling. */
  ghost function RingOf(tasks: map<int, Task>, p: int, ks: seq<int>): (r: seq<ListHead>)
    requires p in tasks && Known(tasks, ks)
    ensures |r| == |ks| + 1 && r[0] == tasks[p].children
    ensures forall i :: 0 <= i < |ks| ==> r[i + 1] == tasks[ks[i]].sibling
  {
    [tasks[p].children] + seq(|ks|, i requires 0 <= i < |ks| => tasks[ks[i]].sibling)
  }

  ghost predicate AllRings(tasks: map<int, Task>, kids: map<int, seq<int>>)
    requires GoodKids(tasks, kids)
    reads HeadsOf(tasks)
  {
    forall p :: p in tasks ==> Ring(RingOf(tasks, p, kids[p]))
  }

  /** A list head is on the list of p only as p's own head or as the sibling of a child. */
  lemma OnRing(tasks: map<int, Task>, kids: map<int, seq<int>>, p: int, x: ListHead)
    requires OwnHeads(tasks) && GoodKids(tasks, kids) && p in tasks
    requires x in RingOf(tasks, p, kids[p])
    ensures x.owner in tasks
    ensures (x == tasks[p].children && x.owner == p) || (x == tasks[x.owner].sibling && x.owner in kids[p])
  {
    var r := RingOf(tasks, p, kids[p]);
    var i :| 0 <= i < |r| && r[i] == x;
    if i > 0 {
      assert kids[p][i - 1] in kids[p];
    }
  }

  lemma RingsDisjoint(tasks: map<int, Task>, kids: map<int, seq<int>>, p: int, q: int)
    requires OwnHeads(tasks) && GoodKids(tasks, kids) && p in tasks && q in tasks && p != q
    ensures forall x :: x in RingOf(tasks, p, kids[p]) ==> x !in RingOf(tasks, q, kids[q])
  {
    forall x | x in RingOf(tasks, p, kids[p]) && x in RingOf(tasks, q, kids[q])
      ensures false
    {
      OnRing(tasks, kids, p, x);
      OnRing(tasks, kids, q, x);
    }
  }

  lemma {:induction false} WithoutIsCut(s: seq<int>, i: nat)
    requires Distinct(s) && i < |s|
    ensures Without(s, s[i]) == Cut(s, i)
  {
    if i == 0 {
      WithoutAbsent(s[1..], s[0]);
      assert Cut(s, 0) == s[1..];
    } else {
      WithoutIsCut(s[1..], i - 1);
      assert Cut(s, i) == [s[0]] + Cut(s[1..], i - 1);
    }
  }

  lemma {:induction false} WithoutAbsent(s: seq<int>, c: int)
    requires c !in s
    ensures Without(s, c) == s
  {
    if s != [] {
      WithoutAbsent(s[1..], c);
    }
  }

  lemma KidsAfterCut(tasks: map<int, Task>, kids: map<int, seq<int>>, p: int, i: nat)
    requires GoodKids(tasks, kids) && p in tasks && i < |kids[p]|
    ensures GoodKids(tasks, Shorter(kids, p, i))
    ensures Unlisted(tasks, Shorter(kids, p, i), kids[p][i])
    ensures RingOf(tasks, p, Cut(kids[p], i)) == Cut(RingOf(tasks, p, kids[p]), i + 1)
  {
    var c := kids[p][i];
    CutFacts(kids[p], i);
    assert c in kids[p];
    hide Cut, Distinct;
    RingAfterCut(tasks, p, kids[p], i);
  }

  lemma CutFacts(s: seq<int>, i: nat)
    requires Distinct(s) && i < |s|
    ensures Distinct(Cut(s, i)) && forall x :: x in Cut(s, i) <==> x in s && x != s[i]
  {
    WithoutIsCut(s, i);
    WithoutFacts(s, s[i]);
  }

  lemma RingAfterCut(tasks: map<int, Task>, p: int, ks: seq<int>, i: nat)
    requires p in tasks && i < |ks| && Known(tasks, ks) && Known(tasks, Cut(ks, i))
    ensures RingOf(tasks, p, Cut(ks, i)) == Cut(RingOf(tasks, p, ks), i + 1)
  {
  }

  lemma KidsAfterAdd(tasks: map<int, Task>, kids: map<int, seq<int>>, t: int, c: int)
    requires GoodKids(tasks, kids) && t in tasks && c in tasks
    requires Unlisted(tasks, kids, c)
    ensures GoodKids(tasks, Longer(kids, t, c))
    ensures RingOf(tasks, t, [c] + kids[t])
         == [tasks[t].children, tasks[c].sibling] + RingOf(tasks, t, kids[t])[1..]
  {
    DistinctCons(c, kids[t]);
    hide Distinct, RingOf;
    RingAfterAdd(tasks, t, kids[t], c);
  }

  lemma RingAfterAdd(tasks: map<int, Task>, t: int, ks: seq<int>, c: int)
    requires t in tasks && c in tasks && Known(tasks, ks) && Known(tasks, [c] + ks)
    ensures RingOf(tasks, t, [c] + ks)
         == [tasks[t].children, tasks[c].sibling] + RingOf(tasks, t, ks)[1..]
  {
    var l := RingOf(tasks, t, [c] + ks);
    var r := [tasks[t].children, tasks[c].sibling] + RingOf(tasks, t, ks)[1..];
    forall i | 0 <= i < |l|
      ensures l[i] == r[i]
    {
      if i >= 2 {
        assert ([c] + ks)[i - 1] == ks[i - 2];
      }
    }
  }

  /** Taking a child off its parent's list leaves every other list alone. */
  method Unlink(tasks: map<int, Task>, ghost kids: map<int, seq<int>>, ghost p: int, ghost i: nat, c: int)
    requires OwnHeads(tasks) && GoodKids(tasks, kids) && AllRings(tasks, kids)
    requires p in tasks && i < |kids[p]| && kids[p][i] == c && c in tasks
    modifies HeadsOf(tasks)`next, HeadsOf(tasks)`prev
    ensures GoodKids(tasks, Shorter(kids, p, i)) && AllRings(tasks, Shorter(kids, p, i))
  {
    hide Ring, RingOf, Cut, OwnHeads, Succ;
    ghost var r := RingOf(tasks, p, kids[p]);
    assert Ring(r);
    KidsAfterCut(tasks, kids, p, i);
    RingInHeads(tasks, kids, p);
    ListDel(tasks[c].sibling, r, i + 1);
    forall q | q in tasks
      ensures Ring(RingOf(tasks, q, Shorter(kids, p, i)[q]))
    {
      if q != p {
        RingsDisjoint(tasks, kids, p, q);
        assert r[i] in r && r[Succ(i + 1, |r|)] in r && r[i + 1] in r;
        assert old(Ring(RingOf(tasks, q, kids[q])));
      }
    }
  }

  lemma RingInHeads(tasks: map<int, Task>, kids: map<int, seq<int>>, p: int)
    requires OwnHeads(tasks) && GoodKids(tasks, kids) && p in tasks
    ensures forall x :: x in RingOf(tasks, p, kids[p]) ==> x in HeadsOf(tasks)
  {
    forall x | x in RingOf(tasks, p, kids[p])
      ensures x in HeadsOf(tasks)
    {
      OnRing(tasks, kids, p, x);
    }
  }

  /** Putting a task that is on no list first on one leaves every other list alone. */
  method Link(tasks: map<int, Task>, ghost kids: map<int, seq<int>>, t: int, c: int)
    requires OwnHeads(tasks) && GoodKids(tasks, kids) && AllRings(tasks, kids)
    requires t in tasks && c in tasks && Unlisted(tasks, kids, c)
    modifies HeadsOf(tasks)`next, HeadsOf(tasks)`prev
    ensures GoodKids(tasks, Longer(kids, t, c)) && AllRings(tasks, Longer(kids, t, c))
  {
    hide Ring, RingOf, Succ;
    ghost var r := RingOf(tasks, t, kids[t]);
    assert Ring(r);
    assert |r| > 0;
    KidsAfterAdd(tasks, kids, t, c);
    RingInHeads(tasks, kids, t);
    forall q | q in tasks
      ensures tasks[c].sibling !in RingOf(tasks, q, kids[q])
    {
      if tasks[c].sibling in RingOf(tasks, q, kids[q]) {
        OnRing(tasks, kids, q, tasks[c].sibling);
      }
    }
    ListAdd(tasks[c].sibling, tasks[t].children, r);
    forall q | q in tasks
      ensures Ring(RingOf(tasks, q, Longer(kids, t, c)[q]))
    {
      if q != t {
        RingsDisjoint(tasks, kids, t, q);
        assert r[0] in r && r[Succ(0, |r|)] in r;
        assert old(Ring(RingOf(tasks, q, kids[q])));
      }
    }
  }

  /** Parent pointers lead to tasks of the table. */
  ghost predicate GoodPointers(tasks: map<int, Task>, parents: map<int, Task?>) {
    forall c {:trigger parents[c]} :: c in parents && parents[c] != null ==>
      parents[c].pid in tasks && tasks[parents[c].pid] == parents[c]
  }

  /** The parent pointers, by pid. */
  ghost function Pids(parents: map<int, Task?>): map<int, int> {
    map c | c in parents && parents[c] != null :: parents[c].pid
  }

  lemma PointerMoves(tasks: map<int, Task>, parents: map<int, Task?>, c: int, t: int)
    requires OwnHeads(tasks) && GoodPointers(tasks, parents) && t in tasks
    ensures GoodPointers(tasks, parents[c := tasks[t]])
    ensures Pids(parents[c := tasks[t]]) == Pids(parents)[c := t]
  {
  }

  lemma KidsMove(f: Family, c: int, t: int, i: nat)
    requires Sound(f) && c in f.parent && t in f.kids
    requires f.parent[c] in f.kids && i < |f.kids[f.parent[c]]| && f.kids[f.parent[c]][i] == c
    ensures Family(f.parent[c := t], Longer(Shorter(f.kids, f.parent[c], i), t, c)) == SetParent(f, c, t)
  {
    var p := f.parent[c];
    WithoutIsCut(f.kids[p], i);
  }

  /** Moving the pointer and the list entry is the SET_PARENT of Family. */
  lemma MoveIsSetParent(tasks: map<int, Task>, f: Family, parents: map<int, Task?>, c: int, t: int, i: nat)
    requires OwnHeads(tasks) && GoodPointers(tasks, parents) && t in tasks
    requires Sound(f) && f.parent == Pids(parents) && f.kids.Keys == tasks.Keys && c in f.parent
    requires f.parent[c] in f.kids && i < |f.kids[f.parent[c]]| && f.kids[f.parent[c]][i] == c
    ensures GoodPointers(tasks, parents[c := tasks[t]])
    ensures var g := Family(Pids(parents[c := tasks[t]]), Longer(Shorter(f.kids, f.parent[c], i), t, c));
            g == SetParent(f, c, t) && Sound(g)
  {
    hide *;
    SetParentSound(f, c, t);
    PointerMoves(tasks, parents, c, t);
    KidsMove(f, c, t, i);
  }

  lemma PlaceInList(f: Family, c: int) returns (i: nat)
    requires Sound(f) && c in f.parent
    ensures f.parent[c] in f.kids && Distinct(f.kids[f.parent[c]])
    ensures i < |f.kids[f.parent[c]]| && f.kids[f.parent[c]][i] == c
  {
    var p := f.parent[c];
    i :| i < |f.kids[p]| && f.kids[p][i] == c;
  }

  // ---------- The ioctls ----------

  class Kernel {
    /** What find_vpid and pid_task look up. */
    const tasks: map<int, Task>
    ghost var kids: map<int, seq<int>>

    ghost function Pointers(): map<int, Task?>
      reads tasks.Values
    {
      map c | c in tasks :: tasks[c].parent
    }

    ghost function Abs(): Family
      reads this, tasks.Values
    {
      Family(Pids(Pointers()), kids)
    }

    /** Both parent fields always agree. */
    ghost predicate RealParents()
      reads tasks.Values
    {
      forall c {:trigger tasks[c].realParent} :: c in tasks ==> tasks[c].realParent == tasks[c].parent
    }

    ghost predicate Valid()
      reads this, tasks.Values, HeadsOf(tasks)
    {
      && OwnHeads(tasks) && GoodPointers(tasks, Pointers()) && RealParents()
      && kids.Keys == tasks.Keys && Sound(Abs())
      && GoodKids(tasks, kids) && AllRings(tasks, kids)
    }

    /** IOCTL_SET_PARENT by the current task. The argument is missing when copy_from_user
        fails. A task that names itself would wait for its own lock for ever. */
    method SetParentIoctl(current: int, arg: Option<int>) returns (r: Outcome)
      requires Valid() && current in tasks && tasks[current].parent != null
      requires arg != Some(current)
      modifies this`kids, tasks.Values, HeadsOf(tasks)
      ensures Valid()
      ensures r == if arg.None? then EFAULT else if arg.value !in tasks then ESRCH else Done
      ensures Abs() == if arg.None? then old(Abs()) else SetParent(old(Abs()), current, arg.value)
    {
      if arg.None? {
        return EFAULT;
      }
      if arg.value !in tasks {
        return ESRCH;
      }
      Adopt(current, arg.value);
      r := Done;
    }

    /** IOCTL_SET_PARENT with an existing target. */
    method Adopt(current: int, t: int)
      requires Valid() && current in tasks && tasks[current].parent != null && t in tasks
      modifies this`kids, Only(tasks[current])`parent, Only(tasks[current])`realParent, HeadsOf(tasks)`next, HeadsOf(tasks)`prev
      ensures Valid()
      ensures Abs() == SetParent(old(Abs()), current, t)
    {
      ghost var f, p, pointers := Abs(), tasks[current].parent.pid, Pointers();
      assert current in pointers && f.parent[current] == p && p in tasks;
      ghost var i := PlaceInList(f, current);
      MoveIsSetParent(tasks, f, pointers, current, t, i);
      assert pointers.Keys == tasks.Keys;
      assert forall x {:trigger tasks[x]} :: x in tasks ==> tasks[x].parent == tasks[x].realParent == pointers[x];
      hide OwnHeads, GoodKids, GoodPointers, AllRings, Sound, HeadsOf, Pids, Shorter, Longer, SetParent, Distinct,
        Pointers, RealParents;
      Relink(current, t, p, i);
      Repointed(pointers, current, t);
    }

    /** The pointer map after one task was given a new parent. */
    lemma Repointed(pointers: map<int, Task?>, c: int, t: int)
      requires pointers.Keys == tasks.Keys && c in tasks && t in tasks
      requires forall x {:trigger tasks[x]} :: x in tasks ==>
        tasks[x].parent == tasks[x].realParent == if x == c then tasks[t] else pointers[x]
      ensures Pointers() == pointers[c := tasks[t]] && RealParents()
    {
      var now := Pointers();
      assert now.Keys == tasks.Keys;
      forall x | x in tasks
        ensures now[x] == pointers[c := tasks[t]][x]
      {
      }
    }

    method SetPointers(current: int, t: int, ghost ks: map<int, seq<int>>)
      requires OwnHeads(tasks) && current in tasks && t in tasks
      requires GoodKids(tasks, ks) && AllRings(tasks, ks)
      modifies Only(tasks[current])`parent, Only(tasks[current])`realParent
      ensures forall c {:trigger tasks[c]} :: c in tasks ==>
        && tasks[c].parent == (if c == current then tasks[t] else old(tasks[c].parent))
        && tasks[c].realParent == (if c == current then tasks[t] else old(tasks[c].realParent))
      ensures AllRings(tasks, ks)
    {
      assert forall x :: x in tasks ==> tasks[x].pid == x;
      tasks[current].parent := tasks[t];
      tasks[current].realParent := tasks[t];
    }

    /** The body of IOCTL_SET_PARENT between the locks, up to the new list. */
    method Leave(current: int, t: int, ghost p: int, ghost i: nat)
      requires OwnHeads(tasks) && GoodKids(tasks, kids) && AllRings(tasks, kids)
      requires current in tasks && t in tasks && p in tasks
      requires p in kids && t in kids && i < |kids[p]| && kids[p][i] == current
      modifies Only(tasks[current])`parent, Only(tasks[current])`realParent, HeadsOf(tasks)`next, HeadsOf(tasks)`prev
      ensures GoodKids(tasks, Shorter(kids, p, i)) && AllRings(tasks, Shorter(kids, p, i))
      ensures forall c {:trigger tasks[c]} :: c in tasks ==>
        && tasks[c].parent == (if c == current then tasks[t] else old(tasks[c].parent))
        && tasks[c].realParent == (if c == current then tasks[t] else old(tasks[c].realParent))
    {
      hide *;
      Unlink(tasks, kids, p, i, current);
      SetPointers(current, t, Shorter(kids, p, i));
    }

    /** The body of IOCTL_SET_PARENT between the locks. */
    method Relink(current: int, t: int, ghost p: int, ghost i: nat)
      requires OwnHeads(tasks) && GoodKids(tasks, kids) && AllRings(tasks, kids)
      requires current in tasks && t in tasks && p in tasks
      requires p in kids && t in kids && i < |kids[p]| && kids[p][i] == current
      modifies this`kids, Only(tasks[current])`parent, Only(tasks[current])`realParent, HeadsOf(tasks)`next, HeadsOf(tasks)`prev
      ensures kids == Longer(Shorter(old(kids), p, i), t, current)
      ensures GoodKids(tasks, kids) && AllRings(tasks, kids)
      ensures forall c {:trigger tasks[c]} :: c in tasks ==>
        && tasks[c].parent == (if c == current then tasks[t] else old(tasks[c].parent))
        && tasks[c].realParent == (if c == current then tasks[t] else old(tasks[c].realParent))
    {
      hide OwnHeads, GoodKids, AllRings, Sound, Distinct, Cut, HeadsOf, RingOf, Ring, Unlisted, Shorter, Longer;
      KidsAfterCut(tasks, kids, p, i);
      ghost var cut := Shorter(kids, p, i);
      Leave(current, t, p, i);
      Link(tasks, cut, t, current);
      kids := Longer(cut, t, current);
    }

    /** IOCTL_EMERGENCY: the pids that SIGTERM is sent to, in order. */
    method Emergency(arg: Option<int>) returns (r: Outcome, signals: seq<int>)
      requires Valid()
      ensures r == if arg.None? then EFAULT else if arg.value !in tasks then ESRCH else Done
      ensures signals == if r == Done then Signals(Abs(), arg.value) else []
    {
      signals := [];
      if arg.None? {
        return EFAULT, [];
      }
      if arg.value !in tasks {
        return ESRCH, [];
      }
      ghost var ks := kids[arg.value];
      ghost var ring := RingOf(tasks, arg.value, ks);
      assert Ring(ring);
      forall n | 0 <= n < |ks|
        ensures ring[n + 1].owner == ks[n]
      {
        assert ks[n] in ks;
      }
      hide OwnHeads, GoodKids, AllRings, Sound, Distinct, RingOf;
      signals := ListOwners(tasks[arg.value].children, ring, ks);
      signals := signals + [arg.value];
      r := Done;
    }

    /** dr_bloom_ioctl's dispatch: 1 and 2 are the two commands of the device. */
    method Ioctl(current: int, cmd: int, arg: Option<int>) returns (r: Outcome, signals: seq<int>)
      requires Valid() && current in tasks && tasks[current].parent != null
      requires cmd == 1 ==> arg != Some(current)
      modifies this`kids, tasks.Values, HeadsOf(tasks)
      ensures Valid()
      ensures r == if cmd != 1 && cmd != 2 then EINVAL else if arg.None? then EFAULT
                   else if arg.value !in tasks then ESRCH else Done
      ensures Abs() == if cmd == 1 && arg.Some? then SetParent(old(Abs()), current, arg.value) else old(Abs())
      ensures signals == if cmd == 2 && r == Done then Signals(Abs(), arg.value) else []
    {
      signals := [];
      if cmd == 1 {
        r := SetParentIoctl(current, arg);
      } else if cmd == 2 {
        r, signals := Emergency(arg);
      } else {
        r := EINVAL;
      }
    }
  }
}
