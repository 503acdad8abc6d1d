/** Walking parent links of a process snapshot; reused process ids may make them cyclic. */
module ParentLinks {
  import opened Options

  datatype Entry = Entry(pid: int, parent: int, exe: string)

  type Table = map<int, Entry>

  ghost predicate ByPid(all: Table) {
    forall p :: p in all ==> all[p].pid == p
  }

  ghost predicate Listed(all: Table, e: Entry) {
    e.pid in all && all[e.pid] == e
  }

  /** The entry `n` parent links above `e`, if all of them are present. */
  ghost function Ancestor(all: Table, e: Entry, n: nat): Option<Entry> {
    if n == 0 then Some(e)
    else
      match Ancestor(all, e, n - 1)
      case None => None
      case Some(a) => if a.parent in all then Some(all[a.parent]) else None
  }

  /** Some chain of present parent links leads from `e` to a link naming `root`. */
  ghost predicate DescendsFrom(all: Table, e: Entry, root: int) {
    e.pid != root && exists n: nat :: NamesParent(all, e, n, root)
  }

  ghost predicate NamesParent(all: Table, e: Entry, n: nat, root: int) {
    Ancestor(all, e, n).Some? && Ancestor(all, e, n).value.parent == root
  }

  /** Entries `0..n` of the chain exist, stay inside the table, and are exactly the ones already seen. */
  ghost predicate SeenChain(all: Table, e: Entry, n: nat, seen: set<int>) {
    && (forall i: nat :: i < n ==> Ancestor(all, e, i).Some? && Listed(all, Ancestor(all, e, i).value))
    && (forall i: nat :: i < n ==> Ancestor(all, e, i).value.pid in seen)
    && (forall p :: p in seen ==> exists i: nat :: i < n && Ancestor(all, e, i).value.pid == p)
  }

  /** Once the chain revisits an entry it only ever repeats the entries already seen. */
  lemma {:induction false} ChainRepeats(all: Table, e: Entry, n: nat, seen: set<int>, m: nat) returns (j: nat)
    requires ByPid(all) && SeenChain(all, e, n, seen) && n > 0
    requires Ancestor(all, e, n).Some? && Listed(all, Ancestor(all, e, n).value) && Ancestor(all, e, n).value.pid in seen
    requires Ancestor(all, e, m).Some?
    ensures j < n && Ancestor(all, e, j) == Ancestor(all, e, m)
  {
    if m < n {
      j := m;
    } else {
      var before := ChainRepeats(all, e, n, seen, m - 1);
      if before + 1 < n {
        j := before + 1;
      } else {
        var again: nat :| again < n && Ancestor(all, e, again).value.pid == Ancestor(all, e, n).value.pid;
        j := again;
      }
    }
  }

  method Descendant(item: Entry, root: int, all: Table) returns (r: bool)
    requires ByPid(all) && Listed(all, item)
    ensures r <==> DescendsFrom(all, item, root)
  {
    if item.pid == root { return false; }
    var seen: set<int> := {};
    var current := item;
    ghost var n: nat := 0;
    while current.pid !in seen
      invariant Ancestor(all, item, n) == Some(current) && Listed(all, current)
      invariant SeenChain(all, item, n, seen) && (n == 0 ==> seen == {})
      invariant forall i: nat :: i < n ==> !NamesParent(all, item, i, root)
      decreases all.Keys - seen
    {
      assert current.pid in all.Keys - seen;
      seen := seen + {current.pid};
      if current.parent == root {
        assert NamesParent(all, item, n, root);
        return true;
      }
      if current.parent !in all {
        NoneAbove(all, item, n, root);
        return false;
      }
      current := all[current.parent];
      n := n + 1;
    }
    forall m: nat ensures !NamesParent(all, item, m, root) {
      if Ancestor(all, item, m).Some? {
        var j := ChainRepeats(all, item, n, seen, m);
        assert !NamesParent(all, item, j, root);
      }
    }
    return false;
  }

  lemma {:induction false} AncestorsEnd(all: Table, e: Entry, n: nat, m: nat)
    requires Ancestor(all, e, n).Some? && Ancestor(all, e, n).value.parent !in all && m > n
    ensures Ancestor(all, e, m).None?
  {
    if m > n + 1 { AncestorsEnd(all, e, n, m - 1); }
  }

  lemma NoneAbove(all: Table, e: Entry, n: nat, root: int)
    requires forall i: nat :: i < n ==> !NamesParent(all, e, i, root)
    requires Ancestor(all, e, n).Some? && Ancestor(all, e, n).value.parent !in all
    requires Ancestor(all, e, n).value.parent != root
    ensures forall m: nat :: !NamesParent(all, e, m, root)
  {
    forall m: nat ensures !NamesParent(all, e, m, root) {
      if m > n { AncestorsEnd(all, e, n, m); }
    }
  }

  // ------------------------------------------------------------------- depth

  /** How many links can be followed before a repeat or a missing parent. */
  ghost function Links(all: Table, e: Entry, seen: set<int>): nat
    requires ByPid(all) && Listed(all, e)
    decreases all.Keys - seen
  {
    if e.pid in seen || e.parent !in all then 0
    else
      assert e.pid in all.Keys - seen;
      1 + Links(all, all[e.parent], seen + {e.pid})
  }

  ghost function DepthOf(all: Table, e: Entry): nat
    requires ByPid(all) && Listed(all, e)
  {
    if Links(all, e, {}) < 100 then Links(all, e, {}) else 100
  }

  method Depth(start: Entry, all: Table) returns (depth: nat)
    requires ByPid(all) && Listed(all, start)
    ensures depth == DepthOf(all, start) <= 100
  {
    depth := 0;
    var seen: set<int> := {};
    var item := start;
    while item.pid !in seen
      invariant Listed(all, item) && depth <= 100
      invariant depth + Links(all, item, seen) == Links(all, start, {})
      decreases all.Keys - seen
    {
      assert item.pid in all.Keys - seen;
      seen := seen + {item.pid};
      if item.parent !in all { return; }
      item := all[item.parent];
      if depth >= 100 { return; }
      depth := depth + 1;
    }
  }

  ghost predicate OnCycle(all: Table, e: Entry) {
    exists n: nat :: n > 0 && Ancestor(all, e, n) == Some(e)
  }

  lemma {:induction false} AncestorOfParent(all: Table, e: Entry, n: nat)
    requires e.parent in all
    ensures Ancestor(all, all[e.parent], n) == Ancestor(all, e, n + 1)
  {
    if n > 0 { AncestorOfParent(all, e, n - 1); }
  }

  /** A process id that the chain never meets does not matter to the walk. */
  lemma {:induction false} UnmetSeen(all: Table, e: Entry, seen: set<int>, p: int)
    requires ByPid(all) && Listed(all, e)
    requires forall n: nat :: Ancestor(all, e, n).Some? ==> Ancestor(all, e, n).value.pid != p
    ensures Links(all, e, seen + {p}) == Links(all, e, seen)
    decreases all.Keys - seen
  {
    assert Ancestor(all, e, 0) == Some(e);
    if e.pid !in seen && e.parent in all {
      assert e.pid in all.Keys - seen;
      var up := all[e.parent];
      forall n: nat | Ancestor(all, up, n).Some? ensures Ancestor(all, up, n).value.pid != p {
        AncestorOfParent(all, e, n);
      }
      UnmetSeen(all, up, seen + {e.pid}, p);
      assert seen + {p} + {e.pid} == seen + {e.pid} + {p};
    }
  }

  lemma {:induction false} AncestorsAreListed(all: Table, e: Entry, n: nat)
    requires ByPid(all) && Listed(all, e) && Ancestor(all, e, n).Some?
    ensures Listed(all, Ancestor(all, e, n).value)
  {
    if n > 0 { AncestorsAreListed(all, e, n - 1); }
  }

  /** Off every cycle a process lies exactly one level below its parent, up to the cap. */
  lemma DepthBelowParent(all: Table, e: Entry)
    requires ByPid(all) && Listed(all, e) && e.parent in all && !OnCycle(all, e)
    ensures DepthOf(all, e) == if DepthOf(all, all[e.parent]) < 100 then DepthOf(all, all[e.parent]) + 1 else 100
  {
    var up := all[e.parent];
    forall n: nat | Ancestor(all, up, n).Some? ensures Ancestor(all, up, n).value.pid != e.pid {
      AncestorOfParent(all, e, n);
      AncestorsAreListed(all, e, n + 1);
      assert Ancestor(all, e, n + 1) != Some(e);
    }
    UnmetSeen(all, up, {}, e.pid);
    assert {} + {e.pid} == {e.pid};
  }

  /** Any listing in depth order visits a parent of depth below 100 before its children. */
  lemma ParentsFirst(all: Table, order: seq<Entry>, child: nat, parent: nat)
    requires ByPid(all) && child < |order| && parent < |order|
    requires forall i :: 0 <= i < |order| ==> Listed(all, order[i])
    requires forall i, j :: 0 <= i < j < |order| ==> DepthOf(all, order[i]) <= DepthOf(all, order[j])
    requires order[child].parent == order[parent].pid && !OnCycle(all, order[child])
    requires DepthOf(all, order[parent]) < 100
    ensures parent < child
  {
    DepthBelowParent(all, order[child]);
    assert all[order[child].parent] == order[parent];
  }
}
