/** The scheduler's array min-heap with hole-based sifting, ordered by deadline. */
module TaskHeap {
  import opened Frames

  datatype Time = Time(sec: int, nsec: int)

  /** `timespec_compare(a, b) <= 0` */
  predicate Le(a: Time, b: Time) { a.sec < b.sec || (a.sec == b.sec && a.nsec <= b.nsec) }

  /** `timespec_compare` */
  function Compare(a: Time, b: Time): (c: int)
    ensures c <= 0 <==> Le(a, b)
    ensures c >= 0 <==> Le(b, a)
  {
    if a.sec != b.sec then (if a.sec > b.sec then 1 else -1)
    else if a.nsec != b.nsec then (if a.nsec > b.nsec then 1 else -1)
    else 0
  }

  datatype Task = Task(nextRun: Time, sid: SessionId)

  function Parent(k: nat): nat
    requires k > 0
  {
    (k - 1) / 2
  }

  ghost predicate Ordered(s: seq<Task>, k: nat)
    requires 0 < k < |s|
  {
    Le(s[Parent(k)].nextRun, s[k].nextRun)
  }

  ghost predicate HeapOrder(s: seq<Task>)
  {
    forall k :: 0 < k < |s| ==> Ordered(s, k)
  }

  /** Every pair not touching the hole i is ordered, and the pairs around it will be. */
  ghost predicate Around(s: seq<Task>, i: nat)
  {
    && i < |s|
    && (forall k :: 0 < k < |s| && k != i && Parent(k) != i ==> Ordered(s, k))
    && (forall k :: 0 < k < |s| && i > 0 && Parent(k) == i ==> Le(s[Parent(i)].nextRun, s[k].nextRun))
  }

  /** A hole moving up with task t: t is no later than anything below the hole. */
  ghost predicate HoleUp(s: seq<Task>, i: nat, t: Task)
  {
    Around(s, i) && forall k :: 0 < k < |s| && Parent(k) == i ==> Le(t.nextRun, s[k].nextRun)
  }

  /** A hole moving down with task t: t is no earlier than what is above the hole. */
  ghost predicate HoleDown(s: seq<Task>, i: nat, t: Task)
  {
    Around(s, i) && (i > 0 ==> Le(s[Parent(i)].nextRun, t.nextRun))
  }

  /** The tasks, with t in the hole. */
  ghost function With(s: seq<Task>, i: nat, t: Task): multiset<Task>
    requires i < |s|
  {
    multiset(s[i := t])
  }

  lemma Moved(s: seq<Task>, i: nat, j: nat, t: Task)
    requires i < |s| && j < |s| && i != j
    ensures With(s[i := s[j]], j, t) == With(s, i, t)
  {
    assert s[i := s[j]][j := t] == s[i := t][i := s[j]][j := t];
    assert multiset(s[i := t][i := s[j]]) == multiset(s[i := t]) - multiset{t} + multiset{s[j]};
  }

  lemma HoleAtEnd(before: seq<Task>, s: seq<Task>, t: Task)
    requires HeapOrder(before) && |s| == |before| + 1 && s[..|before|] == before
    ensures HoleUp(s, |before|, t)
  {
    forall k | 0 < k < |s| && k != |before| && Parent(k) != |before|
      ensures Ordered(s, k)
    {
      assert Ordered(before, k);
    }
  }

  lemma MoveUp(s: seq<Task>, i: nat, t: Task)
    requires HoleUp(s, i, t) && i > 0 && !Le(s[Parent(i)].nextRun, t.nextRun)
    ensures HoleUp(s[i := s[Parent(i)]], Parent(i), t)
    ensures With(s[i := s[Parent(i)]], Parent(i), t) == With(s, i, t)
  {
    var p := Parent(i);
    var u := s[i := s[p]];
    Moved(s, i, p, t);
    if p > 0 { assert Ordered(s, p); }
    forall k | 0 < k < |u| && k != p && Parent(k) != p
      ensures Ordered(u, k)
    {
      if Parent(k) != i { assert Ordered(s, k); }
    }
    forall k | 0 < k < |u| && Parent(k) == p
      ensures Le(t.nextRun, u[k].nextRun) && (p > 0 ==> Le(u[Parent(p)].nextRun, u[k].nextRun))
    {
      if k != i { assert Ordered(s, k); }
    }
  }

  lemma FillUp(s: seq<Task>, i: nat, t: Task)
    requires HoleUp(s, i, t) && (i > 0 ==> Le(s[Parent(i)].nextRun, t.nextRun))
    ensures HeapOrder(s[i := t])
  {
    var u := s[i := t];
    forall k | 0 < k < |u|
      ensures Ordered(u, k)
    {
      if k != i && Parent(k) != i { assert Ordered(s, k); }
    }
  }

  /** c is a child of i that is no later than any other. */
  ghost predicate LeastChild(s: seq<Task>, i: nat, c: nat)
  {
    0 < c < |s| && Parent(c) == i && forall k :: 0 < k < |s| && Parent(k) == i ==> Le(s[c].nextRun, s[k].nextRun)
  }

  lemma MoveDown(s: seq<Task>, i: nat, c: nat, t: Task)
    requires HoleDown(s, i, t) && LeastChild(s, i, c) && Le(s[c].nextRun, t.nextRun)
    ensures HoleDown(s[i := s[c]], c, t)
    ensures With(s[i := s[c]], c, t) == With(s, i, t)
  {
    var u := s[i := s[c]];
    Moved(s, i, c, t);
    forall k | 0 < k < |u| && k != c && Parent(k) != c
      ensures Ordered(u, k)
    {
      if k != i && Parent(k) != i { assert Ordered(s, k); }
    }
    forall k | 0 < k < |u| && Parent(k) == c
      ensures Le(u[Parent(c)].nextRun, u[k].nextRun)
    {
      assert Ordered(s, k);
    }
  }

  lemma FillDown(s: seq<Task>, i: nat, t: Task)
    requires HoleDown(s, i, t) && forall k :: 0 < k < |s| && Parent(k) == i ==> Le(t.nextRun, s[k].nextRun)
    ensures HeapOrder(s[i := t])
  {
    var u := s[i := t];
    forall k | 0 < k < |u|
      ensures Ordered(u, k)
    {
      if k != i && Parent(k) != i { assert Ordered(s, k); }
    }
  }

  /** The root of a heap is a minimum. */
  lemma {:induction false} RootIsLeast(s: seq<Task>, k: nat)
    requires HeapOrder(s) && k < |s|
    ensures Le(s[0].nextRun, s[k].nextRun)
  {
    if k > 0 {
      assert Ordered(s, k);
      RootIsLeast(s, Parent(k));
    }
  }

  /** The sift of `pq_push`: parents move down into the hole until the task fits. */
  method SiftUp(a: array<Task>, n: nat, task: Task)
    requires 0 < n <= a.Length && HeapOrder(a[..n - 1])
    modifies a
    ensures HeapOrder(a[..n]) && multiset(a[..n]) == multiset(old(a[..n - 1])) + multiset{task}
  {
    ghost var before := a[..n - 1];
    var i := n - 1;
    assert a[..n][i := task] == before + [task];
    HoleAtEnd(before, a[..n], task);
    while i > 0
      invariant 0 <= i < n
      invariant HoleUp(a[..n], i, task)
      invariant With(a[..n], i, task) == multiset(before) + multiset{task}
      decreases i
    {
      var p := (i - 1) / 2;
      if Compare(task.nextRun, a[p].nextRun) >= 0 { break; }
      ghost var s := a[..n];
      MoveUp(s, i, task);
      a[i] := a[p];
      assert a[..n] == s[i := s[p]];
      i := p;
    }
    ghost var s := a[..n];
    FillUp(s, i, task);
    a[i] := task;
    assert a[..n] == s[i := task];
  }

  method EarlierChild(a: array<Task>, n: nat, i: nat) returns (child: nat)
    requires i * 2 + 1 < n <= a.Length
    ensures i < child < n && LeastChild(a[..n], i, child)
  {
    child := i * 2 + 1;
    if child + 1 < n && Compare(a[child + 1].nextRun, a[child].nextRun) < 0 { child := child + 1; }
    forall k | 0 < k < n && Parent(k) == i
      ensures Le(a[child].nextRun, a[..n][k].nextRun)
    {
      assert k == i * 2 + 1 || k == i * 2 + 2;
    }
  }

  /** The sift of `pq_pop`: earlier children move up into the hole until the task fits. */
  method SiftDown(a: array<Task>, n: nat, last: Task)
    requires 0 < n <= a.Length && HoleDown(a[..n], 0, last)
    modifies a
    ensures HeapOrder(a[..n]) && multiset(a[..n]) == With(old(a[..n]), 0, last)
  {
    var i := 0;
    while i * 2 + 1 < n
      invariant 0 <= i < n
      invariant HoleDown(a[..n], i, last)
      invariant With(a[..n], i, last) == With(old(a[..n]), 0, last)
      decreases n - i
    {
      var child := EarlierChild(a, n, i);
      ghost var s := a[..n];
      if Compare(last.nextRun, a[child].nextRun) <= 0 { break; }
      MoveDown(s, i, child, last);
      a[i] := a[child];
      assert a[..n] == s[i := s[child]];
      i := child;
    }
    ghost var s := a[..n];
    FillDown(s, i, last);
    a[i] := last;
    assert a[..n] == s[i := last];
  }

  class Heap {
    var nodes: array<Task>
    var size: nat

    ghost predicate Valid()
      reads this, nodes
    {
      0 < nodes.Length && size <= nodes.Length && HeapOrder(nodes[..size])
    }

    ghost function Contents(): multiset<Task>
      reads this, nodes
      requires size <= nodes.Length
    {
      multiset(nodes[..size])
    }

    constructor (capacity: nat)
      requires capacity > 0
      ensures Valid() && fresh(nodes) && Contents() == multiset{}
    {
      nodes := new Task[capacity];
      size := 0;
    }

    /** `realloc` to twice the capacity when full. */
    method Grow()
      requires Valid()
      modifies this
      ensures Valid() && size < nodes.Length && size == old(size) && nodes[..size] == old(nodes[..size])
      ensures nodes == old(nodes) || fresh(nodes)
    {
      if size == nodes.Length {
        var bigger := new Task[2 * nodes.Length];
        forall k | 0 <= k < size { bigger[k] := nodes[k]; }
        nodes := bigger;
        assert nodes[..size] == old(nodes[..size]);
      }
    }

    /** `pq_push` */
    method Push(task: Task)
      requires Valid()
      modifies this, nodes
      ensures Valid() && Contents() == old(Contents()) + multiset{task}
      ensures nodes == old(nodes) || fresh(nodes)
    {
      Grow();
      size := size + 1;
      SiftUp(nodes, size, task);
    }

    /** `pq_pop` */
    method Pop() returns (task: Option<Task>)
      requires Valid()
      modifies this, nodes
      ensures Valid() && nodes == old(nodes)
      ensures task == None <==> old(Contents()) == multiset{}
      ensures task == None ==> Contents() == multiset{}
      ensures task.Some? ==> old(Contents()) == Contents() + multiset{task.value}
      ensures task.Some? ==> forall t :: t in old(Contents()) ==> Le(task.value.nextRun, t.nextRun)
    {
      if size == 0 { return None; }
      ghost var before := nodes[..size];
      LeastIs(before);
      task := Some(nodes[0]);
      size := size - 1;
      var last := nodes[size];
      Shrunk(before, nodes[..size], last);
      if size == 0 {
        nodes[0] := last;
        assert nodes[..size] == [];
      } else {
        SiftDown(nodes, size, last);
      }
    }

    /** The worker's second look under the lock: run the earliest task, and only when due. */
    method TakeDue(now: Time) returns (task: Option<Task>)
      requires Valid()
      modifies this, nodes
      ensures Valid() && nodes == old(nodes)
      ensures task.Some? ==> Le(task.value.nextRun, now) && old(Contents()) == Contents() + multiset{task.value}
      ensures task.Some? ==> forall t :: t in old(Contents()) ==> Le(task.value.nextRun, t.nextRun)
      ensures task == None ==> Contents() == old(Contents()) && forall t :: t in Contents() ==> !Le(t.nextRun, now)
    {
      if size == 0 {
        assert nodes[..size] == [];
        return None;
      }
      LeastIs(nodes[..size]);
      if Compare(now, nodes[0].nextRun) < 0 { return None; }
      ghost var before := nodes[..size];
      assert before[0] in multiset(before);
      task := Pop();
    }
  }

  lemma LeastIs(s: seq<Task>)
    requires HeapOrder(s) && s != []
    ensures forall t :: t in multiset(s) ==> Le(s[0].nextRun, t.nextRun)
  {
    forall t | t in multiset(s)
      ensures Le(s[0].nextRun, t.nextRun)
    {
      var k :| 0 <= k < |s| && s[k] == t;
      RootIsLeast(s, k);
    }
  }

  /** Taking the last node out leaves a hole at the root for it. */
  lemma Shrunk(before: seq<Task>, s: seq<Task>, last: Task)
    requires HeapOrder(before) && before == s + [last]
    ensures s != [] ==> HoleDown(s, 0, last) && With(s, 0, last) + multiset{before[0]} == multiset(before)
    ensures s == [] ==> multiset(before) == multiset{last}
  {
    if s != [] {
      forall k | 0 < k < |s| && Parent(k) != 0
        ensures Ordered(s, k)
      {
        assert Ordered(before, k);
      }
      assert multiset(s[0 := last]) == multiset(s) - multiset{s[0]} + multiset{last};
      assert multiset(before) == multiset(s) + multiset{last};
    }
  }
}
