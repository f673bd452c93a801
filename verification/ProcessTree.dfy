/** Memory of an attempt: the resident size of a process and all its descendants. */
module ProcessTree {
  import opened Prelude

  /** One line of `ps`: parsed, or skipped because it has too few or non-numeric columns. */
  datatype PsLine = PsLine(pid: int, parent: int, rssKb: int) | Unreadable

  datatype Row = Row(parent: int, rssKb: nat)

  type Table = map<int, Row>

  /** The process table of the lines: the last line of a pid wins, sizes are clamped at zero. */
  function TableOf(lines: seq<PsLine>): Table {
    if lines == [] then map[]
    else
      var table := TableOf(lines[..|lines| - 1]);
      match lines[|lines| - 1]
      case PsLine(pid, parent, rss) => table[pid := Row(parent, if rss < 0 then 0 else rss)]
      case Unreadable => table
  }

  /** A chain of parent links from `root` down to `pid`. */
  ghost predicate IsLineage(table: Table, lineage: seq<int>, root: int, pid: int) {
    && |lineage| > 0 && lineage[0] == root && lineage[|lineage| - 1] == pid
    && forall i :: 0 < i < |lineage| ==> lineage[i] in table && table[lineage[i]].parent == lineage[i - 1]
  }

  /** `pid` is `root` or one of its descendants. */
  ghost predicate Descends(table: Table, root: int, pid: int) {
    exists lineage :: IsLineage(table, lineage, root, pid)
  }

  ghost predicate ClosedUnderChildren(table: Table, s: set<int>) {
    forall pid :: pid in table && table[pid].parent in s ==> pid in s
  }

  lemma ChildDescends(table: Table, root: int, pid: int)
    requires pid in table && Descends(table, root, table[pid].parent)
    ensures Descends(table, root, pid)
  {
    var lineage :| IsLineage(table, lineage, root, table[pid].parent);
    assert IsLineage(table, lineage + [pid], root, pid);
  }

  lemma {:induction false} ClosedSetHoldsLineage(table: Table, s: set<int>, lineage: seq<int>, root: int, pid: int)
    requires root in s && ClosedUnderChildren(table, s) && IsLineage(table, lineage, root, pid)
    ensures pid in s
    decreases |lineage|
  {
    if |lineage| > 1 {
      var shorter := lineage[..|lineage| - 1];
      assert IsLineage(table, shorter, root, shorter[|shorter| - 1]);
      ClosedSetHoldsLineage(table, s, shorter, root, shorter[|shorter| - 1]);
    }
  }

  /** A set of descendants of `root` that holds `root` and every child of a member is all of them. */
  lemma ClosureIsDescendants(table: Table, root: int, s: set<int>)
    requires root in s && ClosedUnderChildren(table, s)
    requires forall pid :: pid in s ==> Descends(table, root, pid)
    ensures forall pid :: pid in s <==> Descends(table, root, pid)
  {
    forall pid | Descends(table, root, pid) ensures pid in s {
      var lineage :| IsLineage(table, lineage, root, pid);
      ClosedSetHoldsLineage(table, s, lineage, root, pid);
    }
  }

  function RssOf(table: Table, pid: int): nat {
    if pid in table then table[pid].rssKb else 0
  }

  lemma SomeMember(s: set<int>)
    requires s != {}
    ensures exists pid :: pid in s
  {
    assert (forall pid :: pid !in s) ==> s == {};
  }

  ghost function RssSum(table: Table, s: set<int>): nat {
    if s == {} then 0
    else
      SomeMember(s);
      var pid :| pid in s;
      RssOf(table, pid) + RssSum(table, s - {pid})
  }

  /** The sum does not depend on the order in which members are taken. */
  lemma {:induction false} RssSumTake(table: Table, s: set<int>, pid: int)
    requires pid in s
    ensures RssSum(table, s) == RssOf(table, pid) + RssSum(table, s - {pid})
    decreases s
  {
    var first :| first in s && RssSum(table, s) == RssOf(table, first) + RssSum(table, s - {first});
    if first != pid {
      RssSumTake(table, s - {first}, pid);
      RssSumTake(table, s - {pid}, first);
      assert s - {first} - {pid} == s - {pid} - {first};
    }
  }

  /** The pids of `root` and its descendants, found by repeated passes over the table in any row
      order; parent cycles and missing parents do no harm. */
  method Descendants(table: Table, root: int) returns (descendants: set<int>)
    ensures forall pid :: pid in descendants <==> Descends(table, root, pid)
  {
    descendants := {root};
    assert IsLineage(table, [root], root, root);
    var changed := true;
    while changed
      invariant root in descendants && descendants <= table.Keys + {root}
      invariant forall pid :: pid in descendants ==> Descends(table, root, pid)
      invariant !changed ==> ClosedUnderChildren(table, descendants)
      decreases table.Keys + {root} - descendants, changed
    {
      changed := false;
      ghost var before := descendants;
      var todo := table.Keys;
      while todo != {}
        invariant todo <= table.Keys
        invariant before <= descendants <= table.Keys + {root}
        invariant if changed then before != descendants else before == descendants
        invariant forall pid :: pid in descendants ==> Descends(table, root, pid)
        invariant !changed ==> forall pid :: pid in table && pid !in todo && table[pid].parent in descendants
                                             ==> pid in descendants
        decreases todo
      {
        SomeMember(todo);
        var pid :| pid in todo;
        todo := todo - {pid};
        if pid !in descendants && table[pid].parent in descendants {
          ChildDescends(table, root, pid);
          descendants := descendants + {pid};
          changed := true;
        }
      }
    }
    ClosureIsDescendants(table, root, descendants);
  }

  /** `_process_tree_rss_kb`; `None` when `ps` could not be run. */
  method ProcessTreeRssKb(ps: Option<seq<PsLine>>, root: int) returns (total: nat)
    ensures ps.None? ==> total == 0
    ensures ps.Some? ==> var table := TableOf(ps.value);
      total == RssSum(table, set pid | pid in table.Keys && Descends(table, root, pid))
  {
    if ps.None? {
      return 0;
    }
    var table: Table := map[];
    for n := 0 to |ps.value|
      invariant table == TableOf(ps.value[..n])
    {
      assert ps.value[..n + 1][..n] == ps.value[..n];
      match ps.value[n]
      case PsLine(pid, parent, rss) => table := table[pid := Row(parent, if rss < 0 then 0 else rss)];
      case Unreadable =>
    }
    assert ps.value[..|ps.value|] == ps.value;
    var descendants := Descendants(table, root);
    ghost var wanted := set pid | pid in table.Keys && Descends(table, root, pid);
    total := 0;
    var todo := descendants;
    assert todo * wanted == wanted;
    while todo != {}
      invariant todo <= descendants
      invariant total + RssSum(table, todo * wanted) == RssSum(table, wanted)
      decreases todo
    {
      SomeMember(todo);
      var pid :| pid in todo;
      if pid in table {
        RssSumTake(table, todo * wanted, pid);
        assert todo * wanted - {pid} == (todo - {pid}) * wanted;
        total := total + table[pid].rssKb;
      } else {
        assert todo * wanted == (todo - {pid}) * wanted;
      }
      todo := todo - {pid};
    }
    assert todo * wanted == {};
  }

  /** A process is in the table if and only if a readable line names it; the last such line gives its parent
      and its size, which is at least zero. */
  lemma {:induction false} TableExactly(lines: seq<PsLine>, pid: int)
    ensures pid in TableOf(lines) <==> exists i :: 0 <= i < |lines| && lines[i].PsLine? && lines[i].pid == pid
    ensures forall i :: 0 <= i < |lines| && lines[i].PsLine? && lines[i].pid == pid
                        && (forall j :: i < j < |lines| && lines[j].PsLine? ==> lines[j].pid != pid) ==>
      && pid in TableOf(lines) && TableOf(lines)[pid].parent == lines[i].parent
      && (lines[i].rssKb >= 0 ==> TableOf(lines)[pid].rssKb == lines[i].rssKb)
      && (lines[i].rssKb < 0 ==> TableOf(lines)[pid].rssKb == 0)
  {
    if lines != [] {
      var n := |lines| - 1;
      TableExactly(lines[..n], pid);
      assert forall i :: 0 <= i < n ==> lines[..n][i] == lines[i];
      if lines[n].PsLine? && lines[n].pid == pid { assert lines[n].pid == pid; }
    }
  }
}
