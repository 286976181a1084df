/** `readProcessTreeCpuMs`: the CPU time of a process and all its descendants, from parsed `ps` rows. */
module ProcessTree {
  import opened Common

  datatype Row = Row(pid: nat, ppid: nat, cpuMs: nat)

  // ---------------------------------------------------------------- the rows

  /** The children of a process, in row order; a process listed twice appears twice. */
  function ChildrenOf(rows: seq<Row>, p: nat): seq<nat> {
    if rows == [] then []
    else
      var last := rows[|rows| - 1];
      ChildrenOf(rows[..|rows| - 1], p) + if last.ppid == p then [last.pid] else []
  }

  /** The CPU time of a process: its last row counts. */
  function CpuOf(rows: seq<Row>): (cpu: map<nat, nat>)
    ensures cpu.Keys == Pids(rows)
  {
    if rows == [] then map[]
    else
      var last := rows[|rows| - 1];
      PidsSnoc(rows[..|rows| - 1], last);
      assert rows == rows[..|rows| - 1] + [last];
      CpuOf(rows[..|rows| - 1])[last.pid := last.cpuMs]
  }

  /** No row behind row `i` has its process. */
  ghost predicate LastRow(rows: seq<Row>, i: nat) {
    i < |rows| && forall j :: i < j < |rows| ==> rows[j].pid != rows[i].pid
  }

  /** The CPU time of a process is that of its last row. */
  lemma {:induction false} CpuIsLast(rows: seq<Row>, i: nat)
    requires LastRow(rows, i)
    ensures rows[i].pid in CpuOf(rows) && CpuOf(rows)[rows[i].pid] == rows[i].cpuMs
  {
    var init := rows[..|rows| - 1];
    if i < |init| {
      assert rows[|init|].pid != rows[i].pid;
      CpuIsLast(init, i);
    }
  }

  function Pids(rows: seq<Row>): set<nat> { set i | 0 <= i < |rows| :: rows[i].pid }

  lemma PidsSnoc(rows: seq<Row>, row: Row)
    ensures Pids(rows + [row]) == Pids(rows) + {row.pid}
  {
    var all := rows + [row];
    assert all[|rows|] == row;
    forall i | 0 <= i < |rows| ensures rows[i].pid in Pids(all) {
      assert all[i] == rows[i];
    }
  }

  ghost predicate ParentOf(rows: seq<Row>, parent: nat, child: nat) {
    exists i :: 0 <= i < |rows| && rows[i] == Row(child, parent, rows[i].cpuMs)
  }

  lemma {:induction false} ChildrenAreRows(rows: seq<Row>, p: nat, c: nat)
    ensures c in ChildrenOf(rows, p) <==> ParentOf(rows, p, c)
  {
    if rows != [] {
      var init, last := rows[..|rows| - 1], rows[|rows| - 1];
      ChildrenAreRows(init, p, c);
      if ParentOf(init, p, c) {
        var i :| 0 <= i < |init| && init[i] == Row(c, p, init[i].cpuMs);
        assert rows[i] == init[i];
      }
      if ParentOf(rows, p, c) {
        var i :| 0 <= i < |rows| && rows[i] == Row(c, p, rows[i].cpuMs);
        assert i < |init| ==> init[i] == rows[i];
      }
      assert last == rows[|init|];
    }
  }

  // ---------------------------------------------------------------- the tree

  /** A chain of processes with non-zero ids, each the parent of the next. */
  ghost predicate Chain(rows: seq<Row>, path: seq<nat>) {
    && path != [] && (forall i :: 0 <= i < |path| ==> path[i] != 0)
    && (forall i :: 0 < i < |path| ==> ParentOf(rows, path[i - 1], path[i]))
  }

  ghost predicate Descends(rows: seq<Row>, root: nat, p: nat) {
    exists path :: Chain(rows, path) && path[0] == root && path[|path| - 1] == p
  }

  /** All processes of the tree; the rows may contain cycles and repeated edges. */
  ghost function Tree(rows: seq<Row>, root: nat): set<nat> {
    set p | p in Pids(rows) + {root} && Descends(rows, root, p)
  }

  /** The sum over a set, each element once. */
  ghost function SumCpu(s: set<nat>, cpu: map<nat, nat>): nat {
    if s == {} then 0
    else
      var p :| p in s;
      (if p in cpu then cpu[p] else 0) + SumCpu(s - {p}, cpu)
  }

  lemma {:induction false} SumCpuInsert(s: set<nat>, p: nat, cpu: map<nat, nat>)
    requires p !in s
    ensures SumCpu(s + {p}, cpu) == SumCpu(s, cpu) + if p in cpu then cpu[p] else 0
  {
    var t := s + {p};
    var q :| q in t && SumCpu(t, cpu) == (if q in cpu then cpu[q] else 0) + SumCpu(t - {q}, cpu);
    if q == p {
      assert t - {q} == s;
    } else {
      assert t - {q} == (s - {q}) + {p};
      SumCpuInsert(s - {q}, p, cpu);
      assert s == (s - {q}) + {q};
      SumCpuInsert(s - {q}, q, cpu);
    }
  }

  lemma RootDescends(rows: seq<Row>, root: nat)
    requires root != 0
    ensures Descends(rows, root, root)
  {
    assert Chain(rows, [root]) && [root][0] == root;
  }

  lemma ChildDescends(rows: seq<Row>, root: nat, p: nat, c: nat)
    requires Descends(rows, root, p) && ParentOf(rows, p, c) && c != 0
    ensures Descends(rows, root, c)
  {
    var path :| Chain(rows, path) && path[0] == root && path[|path| - 1] == p;
    assert Chain(rows, path + [c]) && (path + [c])[0] == root;
  }

  /** A set that holds the root and the non-zero children of its members holds the whole tree. */
  lemma {:induction false} ClosedHoldsChain(rows: seq<Row>, seen: set<nat>, path: seq<nat>)
    requires Chain(rows, path) && path[0] in seen
    requires forall p, c :: p in seen && ParentOf(rows, p, c) && c != 0 ==> c in seen
    ensures path[|path| - 1] in seen
  {
    if |path| > 1 {
      var init := path[..|path| - 1];
      assert Chain(rows, init);
      ClosedHoldsChain(rows, seen, init);
      assert ParentOf(rows, path[|path| - 2], path[|path| - 1]);
    }
  }

  /** What is popped next, pushed or already seen: everything the tree still owes. */
  ghost predicate Searching(rows: seq<Row>, root: nat, seen: set<nat>, stack: seq<nat>) {
    && seen <= Tree(rows, root)
    && (forall x :: x in stack && x != 0 ==> x in Tree(rows, root))
    && (root in seen || root in stack)
    && (forall p, c :: p in seen && ParentOf(rows, p, c) && c != 0 ==> c in seen || c in stack)
  }

  lemma SearchPops(rows: seq<Row>, root: nat, seen: set<nat>, stack: seq<nat>)
    requires root != 0 && Searching(rows, root, seen, stack) && stack != []
    requires stack[|stack| - 1] == 0 || stack[|stack| - 1] in seen
    ensures Searching(rows, root, seen, stack[..|stack| - 1])
  {
    var rest := stack[..|stack| - 1];
    assert stack == rest + [stack[|stack| - 1]];
  }

  lemma SearchVisits(rows: seq<Row>, root: nat, seen: set<nat>, stack: seq<nat>, children: seq<nat>)
    requires root != 0 && Searching(rows, root, seen, stack) && stack != [] && stack[|stack| - 1] != 0
    requires children == ChildrenOf(rows, stack[|stack| - 1])
    ensures Searching(rows, root, seen + {stack[|stack| - 1]}, stack[..|stack| - 1] + children)
  {
    var rest, pid := stack[..|stack| - 1], stack[|stack| - 1];
    assert stack == rest + [pid];
    assert pid in stack && pid in Tree(rows, root);
    forall c | c in children && c != 0
      ensures c in Tree(rows, root)
    {
      ChildrenAreRows(rows, pid, c);
      ChildDescends(rows, root, pid, c);
      var i :| 0 <= i < |rows| && rows[i] == Row(c, pid, rows[i].cpuMs);
      assert rows[i].pid in Pids(rows);
    }
    forall c | ParentOf(rows, pid, c) ensures c in children {
      ChildrenAreRows(rows, pid, c);
    }
  }

  lemma SearchEnds(rows: seq<Row>, root: nat, seen: set<nat>)
    requires root != 0 && Searching(rows, root, seen, [])
    ensures seen == Tree(rows, root)
  {
    forall p | p in Tree(rows, root)
      ensures p in seen
    {
      var path :| Chain(rows, path) && path[0] == root && path[|path| - 1] == p;
      ClosedHoldsChain(rows, seen, path);
    }
  }

  /**
   * `readProcessTreeCpuMs` on parsed rows: no result for a missing root, otherwise the CPU time of every
   * process of the tree, each counted once.
   */
  method ReadProcessTreeCpuMs(rootPid: Option<nat>, windows: bool, rows: seq<Row>) returns (r: Option<nat>)
    ensures r.None? <==> rootPid.None? || rootPid.value == 0 || windows || rootPid.value !in Pids(rows)
    ensures r.Some? ==> r.value == SumCpu(Tree(rows, rootPid.value), CpuOf(rows))
  {
    if rootPid.None? || rootPid.value == 0 || windows {
      return None;
    }
    var root := rootPid.value;
    var childrenByParent, cpuByPid := CollectRows(rows);
    if root !in cpuByPid {
      return None;
    }
    RootDescends(rows, root);
    var totalCpuMs := 0;
    var seen: set<nat> := {};
    var stack := [root];
    assert Searching(rows, root, seen, stack);
    while |stack| > 0
      invariant Searching(rows, root, seen, stack)
      invariant totalCpuMs == SumCpu(seen, cpuByPid)
      decreases Tree(rows, root) - seen, |stack|
    {
      var pid := stack[|stack| - 1];
      if pid == 0 || pid in seen {
        SearchPops(rows, root, seen, stack);
        stack := stack[..|stack| - 1];
        continue;
      }
      SearchVisits(rows, root, seen, stack, ChildrenOf(rows, pid));
      SumCpuInsert(seen, pid, cpuByPid);
      assert pid in stack;
      stack := stack[..|stack| - 1];
      seen := seen + {pid};
      totalCpuMs := totalCpuMs + if pid in cpuByPid then cpuByPid[pid] else 0;
      var children := if pid in childrenByParent then childrenByParent[pid] else [];
      stack := PushAll(stack, children);
    }
    SearchEnds(rows, root, seen);
    return Some(totalCpuMs);
  }

  /** Push the children one after the other. */
  method PushAll(stack: seq<nat>, children: seq<nat>) returns (r: seq<nat>)
    ensures r == stack + children
  {
    r := stack;
    for i := 0 to |children|
      invariant r == stack + children[..i]
    {
      r := r + [children[i]];
    }
  }

  /** The loop over the rows. */
  method CollectRows(rows: seq<Row>) returns (childrenByParent: map<nat, seq<nat>>, cpuByPid: map<nat, nat>)
    ensures cpuByPid == CpuOf(rows)
    ensures forall p :: ChildrenOf(rows, p) == if p in childrenByParent then childrenByParent[p] else []
  {
    childrenByParent, cpuByPid := map[], map[];
    for i := 0 to |rows|
      invariant cpuByPid == CpuOf(rows[..i])
      invariant forall p :: ChildrenOf(rows[..i], p) == if p in childrenByParent then childrenByParent[p] else []
    {
      assert rows[..i + 1][..i] == rows[..i];
      var row := rows[i];
      cpuByPid := cpuByPid[row.pid := row.cpuMs];
      var children := if row.ppid in childrenByParent then childrenByParent[row.ppid] else [];
      childrenByParent := childrenByParent[row.ppid := children + [row.pid]];
    }
    assert rows[..|rows|] == rows;
  }

  /** On a row list whose parents form a cycle every process is still counted once. */
  lemma CycleExample()
    ensures var rows := [Row(1, 2, 10), Row(2, 1, 5), Row(2, 1, 7)];
            Tree(rows, 1) == {1, 2} && SumCpu(Tree(rows, 1), CpuOf(rows)) == 17
  {
    var rows := [Row(1, 2, 10), Row(2, 1, 5), Row(2, 1, 7)];
    RootDescends(rows, 1);
    assert rows[1] == Row(2, 1, rows[1].cpuMs);
    ChildDescends(rows, 1, 1, 2);
    assert rows[0].pid == 1 && rows[1].pid == 2;
    assert Pids(rows) == {1, 2};
    assert Tree(rows, 1) == {1, 2};
    assert rows[..2] == [Row(1, 2, 10), Row(2, 1, 5)] && rows[..2][..1] == [Row(1, 2, 10)] && rows[..1][..0] == [];
    assert CpuOf([Row(1, 2, 10)]) == map[1 := 10];
    assert CpuOf(rows[..2]) == map[1 := 10, 2 := 5];
    assert CpuOf(rows) == map[1 := 10, 2 := 7];
    SumCpuInsert({}, 1, CpuOf(rows));
    SumCpuInsert({1}, 2, CpuOf(rows));
    assert {} + {1} == {1} && {1} + {2} == {1, 2};
  }
}
