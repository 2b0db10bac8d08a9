/** Sorting structs so that each comes after the structs its fields name (lang/ast/sort.go). */
module TopoSort {

  /** A qualified type name. */
  type QID = (nat, nat)

  /** A struct declaration: its address in memory, its name, and the innermost type names of its fields. */
  datatype Struct = Struct(address: nat, qid: QID, fieldTypes: seq<QID>)

  type Table = map<QID, Struct>

  // ---------------- The graph

  /** n has a field whose type is o. */
  predicate DependsOn(byQID: Table, n: Struct, o: Struct)
  {
    exists f | f in n.fieldTypes :: f in byQID && byQID[f] == o
  }

  /** A walk along dependencies. */
  ghost predicate IsWalk(byQID: Table, p: seq<Struct>)
  {
    forall i | 0 <= i < |p| - 1 :: DependsOn(byQID, p[i], p[i + 1])
  }

  ghost predicate IsCycle(byQID: Table, p: seq<Struct>)
  {
    |p| >= 2 && p[0] == p[|p| - 1] && IsWalk(byQID, p)
  }

  ghost predicate Cyclic(byQID: Table, ns: seq<Struct>)
  {
    exists p: seq<Struct> :: (forall i | 0 <= i < |p| :: p[i] in ns) && IsCycle(byQID, p)
  }

  /** No struct twice, and each after all it depends on. */
  ghost predicate Ordered(byQID: Table, s: seq<Struct>)
  {
    && (forall i, j | 0 <= i < j < |s| :: s[i] != s[j])
    && (forall i, o | 0 <= i < |s| && DependsOn(byQID, s[i], o) :: o in s[..i])
  }

  lemma OrderedAppend(byQID: Table, s: seq<Struct>, n: Struct)
    requires Ordered(byQID, s) && n !in s
    requires forall o | DependsOn(byQID, n, o) :: o in s
    ensures Ordered(byQID, s + [n])
  {
    var t := s + [n];
    forall i, o | 0 <= i < |t| && DependsOn(byQID, t[i], o) ensures o in t[..i] {
      if i < |s| { assert t[..i] == s[..i]; } else { assert t[..i] == s; }
    }
  }

  /** Along a walk inside an ordered list, positions decrease; so no walk returns to its start. */
  lemma {:induction false} WalkDescends(byQID: Table, s: seq<Struct>, p: seq<Struct>, k: nat, i: nat)
    requires Ordered(byQID, s) && IsWalk(byQID, p) && 0 < k < |p|
    requires i < |s| && s[i] == p[0]
    ensures p[k] in s[..i]
  {
    assert DependsOn(byQID, p[0], p[1]);
    var j :| 0 <= j < i && s[j] == p[1];
    if k > 1 {
      assert IsWalk(byQID, p[1..]) by {
        forall m | 0 <= m < |p[1..]| - 1 ensures DependsOn(byQID, p[1..][m], p[1..][m + 1]) {
          assert DependsOn(byQID, p[m + 1], p[m + 2]);
        }
      }
      WalkDescends(byQID, s, p[1..], k - 1, j);
    }
  }

  lemma OrderedIsAcyclic(byQID: Table, ns: seq<Struct>, s: seq<Struct>)
    requires Ordered(byQID, s) && forall n | n in ns :: n in s
    ensures !Cyclic(byQID, ns)
  {
    forall p: seq<Struct> | (forall i | 0 <= i < |p| :: p[i] in ns) && |p| >= 2 && IsWalk(byQID, p)
      ensures p[0] != p[|p| - 1]
    {
      assert p[0] in s;
      var i :| 0 <= i < |s| && s[i] == p[0];
      WalkDescends(byQID, s, p, |p| - 1, i);
    }
  }

  // ---------------- The sort

  datatype Mark = Temporary | Permanent

  class Sorter {
    const byQID: Table
    var marks: map<Struct, Mark>

    constructor (byQID: Table)
      ensures this.byQID == byQID && marks == map[]
    {
      this.byQID := byQID;
      marks := map[];
    }

    /** The marks, told apart: dst is finished, and path is the chain of visits in progress. */
    ghost predicate Visiting(dst: seq<Struct>, path: seq<Struct>)
      reads this
    {
      && Ordered(byQID, dst) && IsWalk(byQID, path)
      && (forall n :: n in dst <==> n in marks && marks[n] == Permanent)
      && (forall n :: n in path <==> n in marks && marks[n] == Temporary)
    }

    /** tssVisit: append n after everything it depends on, or find a cycle. */
    method Visit(dst: seq<Struct>, n: Struct, ghost ns: seq<Struct>, ghost path: seq<Struct>)
      returns (dst': seq<Struct>, ok: bool)
      requires Visiting(dst, path)
      requires n in ns && (forall q | q in byQID :: byQID[q] in ns) && (forall m | m in marks :: m in ns)
      requires path != [] ==> DependsOn(byQID, path[|path| - 1], n)
      modifies this
      ensures forall m | m in marks :: m in ns
      ensures marks.Keys >= old(marks.Keys)
      ensures ok ==> Visiting(dst', path) && dst <= dst' && n in dst'
      ensures !ok ==> Cyclic(byQID, ns)
      decreases (set m | m in ns) - marks.Keys
    {
      hide Ordered, IsCycle, Cyclic, IsWalk;
      if n in marks && marks[n] == Temporary {
        BackEdge(ns, path, n, dst);
        return [], false;
      }
      if n in marks && marks[n] == Permanent {
        return dst, true;
      }
      marks := marks[n := Temporary];
      ghost var path' := path + [n];
      WalkGrows(byQID, path, n);
      PathGrows(path, n);
      dst', ok := dst, true;
      var i := 0;
      while i < |n.fieldTypes|
        invariant 0 <= i <= |n.fieldTypes|
        invariant Visiting(dst', path') && dst <= dst'
        invariant forall m | m in marks :: m in ns
        invariant marks.Keys >= old(marks.Keys) + {n}
        invariant forall f | f in n.fieldTypes[..i] && f in byQID :: byQID[f] in dst'
      {
        var f := n.fieldTypes[i];
        if f in byQID {
          assert DependsOn(byQID, n, byQID[f]);
          assert n in (set m | m in ns) && n !in old(marks.Keys);
          ghost var before := dst';
          dst', ok := Visit(dst', byQID[f], ns, path');
          if !ok {
            return [], false;
          }
          PrefixMembers(before, dst');
        }
        i := i + 1;
      }
      OrderedAppend(byQID, dst', n);
      marks := marks[n := Permanent];
      dst' := dst' + [n];
      PathGrows(path, n);
    }

    lemma BackEdge(ns: seq<Struct>, path: seq<Struct>, n: Struct, dst: seq<Struct>)
      requires Visiting(dst, path) && n in path && n in ns && forall m | m in marks :: m in ns
      requires DependsOn(byQID, path[|path| - 1], n)
      ensures Cyclic(byQID, ns)
    {
      var k :| 0 <= k < |path| && path[k] == n;
      var p := path[k..] + [n];
      assert IsCycle(byQID, p) by {
        forall i | 0 <= i < |p| - 1 ensures DependsOn(byQID, p[i], p[i + 1]) {
          if i < |p| - 2 { assert DependsOn(byQID, path[k + i], path[k + i + 1]); }
        }
      }
      forall i | 0 <= i < |p| ensures p[i] in ns { assert p[i] in path; }
    }
  }

  lemma WalkGrows(byQID: Table, path: seq<Struct>, n: Struct)
    requires IsWalk(byQID, path) && (path != [] ==> DependsOn(byQID, path[|path| - 1], n))
    ensures IsWalk(byQID, path + [n])
  {
  }

  lemma PathGrows(path: seq<Struct>, n: Struct)
    ensures forall m :: m in path + [n] <==> m in path || m == n
  {
  }

  /** The name table: of structs with one name, the last wins. */
  function ByQID(ns: seq<Struct>): (t: Table)
    ensures forall q | q in t :: t[q] in ns && t[q].qid == q
    ensures forall n | n in ns :: n.qid in t
  {
    if ns == [] then map[]
    else ByQID(ns[..|ns| - 1])[ns[|ns| - 1].qid := ns[|ns| - 1]]
  }

  method MakeTable(ns: seq<Struct>) returns (byQID: Table)
    ensures byQID == ByQID(ns)
  {
    byQID := map[];
    var i := 0;
    while i < |ns|
      invariant 0 <= i <= |ns|
      invariant byQID == ByQID(ns[..i])
    {
      assert ns[..i + 1][..i] == ns[..i];
      byQID := byQID[ns[i].qid := ns[i]];
      i := i + 1;
    }
    assert ns[..i] == ns;
  }

  /** TopologicalSortStructs: ok exactly when no struct contains itself, directly or not. */
  method Sort(ns: seq<Struct>) returns (sorted: seq<Struct>, ok: bool)
    ensures ok <==> !Cyclic(ByQID(ns), ns)
    ensures ok ==> Ordered(ByQID(ns), sorted) && forall n :: n in sorted <==> n in ns
    ensures ok && Distinct(ns) ==> multiset(sorted) == multiset(ns)
  {
    var byQID := MakeTable(ns);
    var sorter := new Sorter(byQID);
    sorted, ok := [], true;
    var i := 0;
    hide Ordered, IsWalk, IsCycle, Cyclic, ByQID;
    EmptyIsOrdered(byQID);
    while i < |ns|
      invariant 0 <= i <= |ns|
      invariant sorter.byQID == byQID && sorter.Visiting(sorted, [])
      invariant forall m | m in sorter.marks :: m in ns
      invariant forall k | 0 <= k < i :: ns[k] in sorted
    {
      if ns[i] !in sorter.marks {
        ghost var before := sorted;
        sorted, ok := sorter.Visit(sorted, ns[i], ns, []);
        if !ok {
          return [], false;
        }
        PrefixMembers(before, sorted);
      }
      i := i + 1;
    }
    OrderedIsAcyclic(byQID, ns, sorted);
    if Distinct(ns) {
      OrderedIsDistinct(byQID, sorted);
      SortedIsPermutation(ns, sorted);
    }
  }

  predicate Distinct(s: seq<Struct>) { forall i, j | 0 <= i < j < |s| :: s[i] != s[j] }

  lemma OrderedIsDistinct(byQID: Table, s: seq<Struct>)
    requires Ordered(byQID, s)
    ensures Distinct(s)
  {
  }

  lemma PrefixMembers(s: seq<Struct>, t: seq<Struct>)
    requires s <= t
    ensures forall n | n in s :: n in t
  {
  }

  lemma EmptyIsOrdered(byQID: Table)
    ensures Ordered(byQID, []) && IsWalk(byQID, [])
  {
  }

  /** For distinct structs the result is a permutation. */
  lemma SortedIsPermutation(ns: seq<Struct>, sorted: seq<Struct>)
    requires Distinct(ns) && Distinct(sorted)
    requires forall n :: n in sorted <==> n in ns
    ensures multiset(sorted) == multiset(ns)
  {
    forall n: Struct ensures multiset(sorted)[n] == multiset(ns)[n] {
      CountOfDistinct(ns, n);
      CountOfDistinct(sorted, n);
    }
  }

  lemma {:induction false} CountOfDistinct(s: seq<Struct>, n: Struct)
    requires forall i, j | 0 <= i < j < |s| :: s[i] != s[j]
    ensures multiset(s)[n] == if n in s then 1 else 0
  {
    if s != [] {
      CountOfDistinct(s[..|s| - 1], n);
      assert s == s[..|s| - 1] + [s[|s| - 1]];
    }
  }
}
