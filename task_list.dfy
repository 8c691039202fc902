/** The values `TodoApp` keeps in `this.todoTask`, and the list operations it
    applies to them: `splice` of one position, the renumbering `forEach`, and
    `Array.prototype.sort` with the comparator `a.index - b.index`. */
module TaskList {

  /** One to-do record `{description, completed, index}`; `index` is the
      1-based display rank. */
  datatype Task = Task(description: string, completed: bool, index: int)

  /** Indices are exactly 1..N in array order. */
  predicate Contiguous(s: seq<Task>) {
    forall j :: 0 <= j < |s| ==> s[j].index == j + 1
  }

  /** Indices never decrease along the list: the order `render` shows. */
  predicate SortedByIndex(s: seq<Task>) {
    forall i, j :: 0 <= i < j < |s| ==> s[i].index <= s[j].index
  }

  /** `a` and `b` hold the same descriptions and completion flags, position by
      position; their indices may differ. */
  predicate SameContent(a: seq<Task>, b: seq<Task>) {
    && |a| == |b|
    && forall j :: 0 <= j < |a| ==>
         a[j].description == b[j].description && a[j].completed == b[j].completed
  }

  lemma ContiguousIsSorted(s: seq<Task>)
    requires Contiguous(s)
    ensures SortedByIndex(s)
  {
  }

  // ---------------------------------------------------------------------------
  // splice(taskId, 1)

  /** `s.splice(k, 1)` for a non-negative start `k`: removes the element at
      position `k`, or nothing when there is no such position. */
  function Splice(s: seq<Task>, k: nat): (r: seq<Task>)
    ensures k < |s| ==> |r| == |s| - 1
    ensures k < |s| ==> forall j :: 0 <= j < k ==> r[j] == s[j]
    ensures k < |s| ==> forall j :: k <= j < |r| ==> r[j] == s[j + 1]
    ensures |s| <= k ==> r == s
  {
    if k < |s| then s[..k] + s[k + 1..] else s
  }

  /** Putting the removed task back at position `k` restores the list: `Splice`
      removes that one task and keeps the order of the others. */
  lemma SpliceReinsert(s: seq<Task>, k: nat)
    requires k < |s|
    ensures Splice(s, k)[..k] + [s[k]] + Splice(s, k)[k..] == s
  {
  }

  /** Exactly one occurrence of `s[k]` leaves the list. */
  lemma SpliceMultiset(s: seq<Task>, k: nat)
    requires k < |s|
    ensures multiset(Splice(s, k)) + multiset{s[k]} == multiset(s)
  {
    SpliceReinsert(s, k);
    var r := Splice(s, k);
    calc {
      multiset(s);
      multiset(r[..k] + [s[k]] + r[k..]);
      multiset(r[..k]) + multiset{s[k]} + multiset(r[k..]);
      { assert r == r[..k] + r[k..]; }
      multiset(r) + multiset{s[k]};
    }
  }

  // ---------------------------------------------------------------------------
  // forEach((task, index) => { task.index = index + 1; })

  /** The list after the renumbering loop: indices become 1..N, whatever they
      were before, and descriptions, completion flags and order stay as they
      were. */
  function Renumbered(s: seq<Task>): (r: seq<Task>)
    ensures Contiguous(r) && SameContent(r, s)
  {
    seq(|s|, j requires 0 <= j < |s| => s[j].(index := j + 1))
  }

  /** `Renumbered(s)` is the only list with the content of `s` and indices 1..N. */
  lemma RenumberedUnique(s: seq<Task>, r: seq<Task>)
    requires Contiguous(r) && SameContent(r, s)
    ensures r == Renumbered(s)
  {
  }

  /** A list already numbered 1..N is left as it is. */
  lemma RenumberedContiguousIsIdentity(s: seq<Task>)
    requires Contiguous(s)
    ensures Renumbered(s) == s
  {
  }

  /** `deleteTask(k)`'s list: the task at position `k` is gone, the others keep
      their description, completion flag and relative order, and every task is
      ranked by its new position. */
  lemma DeleteResult(s: seq<Task>, k: nat)
    requires k < |s|
    ensures var r := Renumbered(Splice(s, k));
      && |r| == |s| - 1
      && Contiguous(r)
      && (forall j :: 0 <= j < k ==>
            r[j] == s[j].(index := j + 1))
      && (forall j :: k <= j < |r| ==>
            r[j] == s[j + 1].(index := j + 1))
  {
  }

  // ---------------------------------------------------------------------------
  // sort((a, b) => a.index - b.index)

  /** Inserts `t` before the first task whose index is not smaller than its own. */
  function InsertByIndex(t: Task, s: seq<Task>): (r: seq<Task>)
    ensures |r| == |s| + 1
    ensures multiset(r) == multiset(s) + multiset{t}
  {
    if s == [] || t.index <= s[0].index then [t] + s
    else
      assert s == [s[0]] + s[1..];
      [s[0]] + InsertByIndex(t, s[1..])
  }

  /** A stable sort by ascending index (insertion sort). */
  function SortByIndex(s: seq<Task>): (r: seq<Task>)
    ensures |r| == |s|
    ensures multiset(r) == multiset(s)
  {
    if s == [] then []
    else
      assert s == [s[0]] + s[1..];
      InsertByIndex(s[0], SortByIndex(s[1..]))
  }

  /** The tasks of `s` that carry index `k`, in list order. A sort is stable when
      it keeps each of these subsequences as it was. */
  function WithIndex(s: seq<Task>, k: int): (r: seq<Task>)
    ensures |r| <= |s|
    ensures forall t :: t in r ==> t in s && t.index == k
  {
    if s == [] then []
    else (if s[0].index == k then [s[0]] else []) + WithIndex(s[1..], k)
  }

  lemma SortedCons(x: Task, s: seq<Task>)
    requires SortedByIndex(s) && (s == [] || x.index <= s[0].index)
    ensures SortedByIndex([x] + s)
  {
  }

  lemma {:induction false} InsertKeepsSorted(t: Task, s: seq<Task>)
    requires SortedByIndex(s)
    ensures SortedByIndex(InsertByIndex(t, s))
  {
    if s == [] || t.index <= s[0].index {
      SortedCons(t, s);
    } else {
      var tail := s[1..];
      var rest := InsertByIndex(t, tail);
      assert SortedByIndex(tail);
      InsertKeepsSorted(t, tail);
      assert rest[0] == t || (tail != [] && rest[0] == tail[0] && s[0].index <= tail[0].index);
      SortedCons(s[0], rest);
    }
  }

  /** The result of the sort is in ascending index order. */
  lemma {:induction false} SortByIndexIsSorted(s: seq<Task>)
    ensures SortedByIndex(SortByIndex(s))
  {
    if s != [] {
      SortByIndexIsSorted(s[1..]);
      InsertKeepsSorted(s[0], SortByIndex(s[1..]));
    }
  }

  /** Insertion passes only tasks with a smaller index, so it never reorders `t`
      among the tasks of its own index. */
  lemma {:induction false} InsertWithIndex(t: Task, s: seq<Task>, k: int)
    ensures WithIndex(InsertByIndex(t, s), k)
         == (if t.index == k then [t] else []) + WithIndex(s, k)
  {
    var r := InsertByIndex(t, s);
    if s == [] || t.index <= s[0].index {
      assert r[0] == t && r[1..] == s;
    } else {
      var rest := InsertByIndex(t, s[1..]);
      assert r[0] == s[0] && r[1..] == rest;
      InsertWithIndex(t, s[1..], k);
      if s[0].index == k {
        assert t.index != k;
        assert WithIndex(r, k) == [s[0]] + WithIndex(rest, k);
        assert WithIndex(s, k) == [s[0]] + WithIndex(s[1..], k);
      } else {
        assert WithIndex(r, k) == WithIndex(rest, k);
        assert WithIndex(s, k) == WithIndex(s[1..], k);
      }
    }
  }

  /** The sort is stable: for every index value, the tasks carrying it appear in
      the same relative order as before. */
  lemma {:induction false} SortByIndexIsStable(s: seq<Task>, k: int)
    ensures WithIndex(SortByIndex(s), k) == WithIndex(s, k)
  {
    if s != [] {
      InsertWithIndex(s[0], SortByIndex(s[1..]), k);
      SortByIndexIsStable(s[1..], k);
    }
  }

  lemma WithIndexHead(s: seq<Task>)
    requires s != []
    ensures WithIndex(s, s[0].index) != [] && WithIndex(s, s[0].index)[0] == s[0]
  {
  }

  /** `a` and `b` hold the same tasks of each index value, in the same order. */
  ghost predicate SameGroups(a: seq<Task>, b: seq<Task>) {
    forall k :: WithIndex(a, k) == WithIndex(b, k)
  }

  lemma SortedHeadsAgree(a: seq<Task>, b: seq<Task>)
    requires a != [] && b != []
    requires SortedByIndex(a) && SortedByIndex(b) && SameGroups(a, b)
    ensures a[0] == b[0]
  {
    var m, n := a[0].index, b[0].index;
    WithIndexHead(a);
    WithIndexHead(b);
    assert WithIndex(a, m) == WithIndex(b, m);
    assert WithIndex(a, n) == WithIndex(b, n);
    assert WithIndex(b, m)[0] in b;
    assert WithIndex(a, n)[0] in a;
  }

  lemma SameGroupsTail(a: seq<Task>, b: seq<Task>)
    requires a != [] && b != [] && a[0] == b[0] && SameGroups(a, b)
    ensures SameGroups(a[1..], b[1..])
  {
    forall k ensures WithIndex(a[1..], k) == WithIndex(b[1..], k) {
      var head := if a[0].index == k then [a[0]] else [];
      assert WithIndex(a, k) == head + WithIndex(a[1..], k);
      assert WithIndex(b, k) == head + WithIndex(b[1..], k);
      assert WithIndex(a, k) == WithIndex(b, k);
      assert WithIndex(a[1..], k) == WithIndex(a, k)[|head|..];
      assert WithIndex(b[1..], k) == WithIndex(b, k)[|head|..];
    }
  }

  /** Two lists in ascending index order that agree on the tasks of every index
      value are equal. */
  lemma {:induction false} SortedGroupsDetermineList(a: seq<Task>, b: seq<Task>)
    requires SortedByIndex(a) && SortedByIndex(b) && SameGroups(a, b)
    ensures a == b
  {
    if a == [] && b != [] {
      WithIndexHead(b);
      assert false;
    } else if a != [] && b == [] {
      WithIndexHead(a);
      assert false;
    } else if a != [] {
      SortedHeadsAgree(a, b);
      SameGroupsTail(a, b);
      SortedGroupsDetermineList(a[1..], b[1..]);
      assert a == [a[0]] + a[1..] && b == [b[0]] + b[1..];
    }
  }

  /** `SortByIndex` is exactly the stable sort by index: a list is the sorted
      form of `s` if and only if it is in ascending index order and keeps the
      order of the tasks of each index value. */
  lemma SortByIndexCharacterization(s: seq<Task>, r: seq<Task>)
    ensures r == SortByIndex(s)
        <==> SortedByIndex(r) && SameGroups(r, s)
  {
    SortByIndexIsSorted(s);
    forall k ensures WithIndex(SortByIndex(s), k) == WithIndex(s, k) {
      SortByIndexIsStable(s, k);
    }
    if SortedByIndex(r) && SameGroups(r, s) {
      forall k ensures WithIndex(r, k) == WithIndex(SortByIndex(s), k) {
        assert WithIndex(r, k) == WithIndex(s, k);
      }
      SortedGroupsDetermineList(r, SortByIndex(s));
    }
  }

  /** Sorting a list that is already in index order changes nothing; in
      particular a list numbered 1..N is left as it is. */
  lemma {:induction false} SortSortedIsIdentity(s: seq<Task>)
    requires SortedByIndex(s)
    ensures SortByIndex(s) == s
  {
    SortByIndexCharacterization(s, s);
  }

  lemma SortContiguousIsIdentity(s: seq<Task>)
    requires Contiguous(s)
    ensures SortByIndex(s) == s
  {
    ContiguousIsSorted(s);
    SortSortedIsIdentity(s);
  }

  /** Appending a task numbered N+1 to a list numbered 1..N gives a list
      numbered 1..N+1, which the sort leaves in place. */
  lemma AppendNextKeepsContiguous(s: seq<Task>, t: Task)
    requires Contiguous(s) && t.index == |s| + 1
    ensures Contiguous(s + [t]) && SortByIndex(s + [t]) == s + [t]
  {
    var r := s + [t];
    assert forall j :: 0 <= j < |s| ==> r[j] == s[j];
    SortContiguousIsIdentity(r);
  }

  lemma ContiguousBound(r: seq<Task>, x: Task)
    ensures Contiguous(r) && x in r ==> x.index <= |r|
  {
  }

  /** A list in index order with an index above N+1 still has one after a task
      ranked N+1 is appended and the result sorted, so it is not 1..N+1. */
  lemma AppendNextAfterGap(s: seq<Task>, t: Task)
    requires SortedByIndex(s) && t.index == |s| + 1 && !SortedByIndex(s + [t])
    ensures !Contiguous(SortByIndex(s + [t]))
  {
    var u := s + [t];
    var i, j :| 0 <= i < j < |u| && u[i].index > u[j].index;
    assert j == |s|;
    var x := u[i];
    assert x in multiset(u);
    assert x in SortByIndex(u);
    ContiguousBound(SortByIndex(u), x);
  }

  /** For a list in index order, appending a task ranked N+1 and sorting gives
      indices 1..N+1 exactly when the list had indices 1..N before. */
  lemma AppendNextContiguousIff(s: seq<Task>, t: Task)
    requires SortedByIndex(s) && t.index == |s| + 1
    ensures Contiguous(SortByIndex(s + [t])) <==> Contiguous(s)
  {
    var u := s + [t];
    if Contiguous(s) {
      AppendNextKeepsContiguous(s, t);
    } else if SortedByIndex(u) {
      SortSortedIsIdentity(u);
      assert forall j :: 0 <= j < |s| ==> u[j] == s[j];
    } else {
      AppendNextAfterGap(s, t);
    }
  }
}
