/** `listItemsBySuite`: the tables' invariant is what makes the execution order complete. */
module SuiteListing {
  import opened Options
  import opened SiblingOrder
  import opened ParentForest
  import opened SuiteTables
  import opened SuiteRows
  import opened SuiteOrder
  import opened SuiteOrderLaws

  /** `SELECT ... FROM test_suite_folders WHERE suite_id = ?`, in whatever order the rows come. */
  ghost predicate FoldersOfSuite(t: Tables, suite: Id, rows: seq<Row>) {
    && DistinctIds(rows)
    && (forall r :: r in rows ==> r.id in t.folders && t.folders[r.id].suite == suite
                                  && r == Row(r.id, t.folders[r.id].parent, t.folders[r.id].sort, Some(t.folders[r.id].createdAt)))
    && (forall f :: f in t.folders && t.folders[f].suite == suite ==> f in IdsOf(rows))
  }

  /** `SELECT * FROM test_suite_items WHERE suite_id = ?`. */
  ghost predicate ItemsOfSuite(t: Tables, suite: Id, rows: seq<Row>) {
    && DistinctIds(rows)
    && (forall r :: r in rows ==> r.id in t.items && t.items[r.id].suite == suite
                                  && r == Row(r.id, t.items[r.id].folder, t.items[r.id].sort, Some(t.items[r.id].createdAt)))
    && (forall i :: i in t.items && t.items[i].suite == suite ==> i in IdsOf(rows))
  }

  lemma {:induction false} SuiteParents(t: Tables, suite: Id, rows: seq<Row>)
    requires Valid(t) && FoldersOfSuite(t, suite, rows)
    ensures Acyclic(ParentsIn(rows))
  {
    var p, q := ParentsOf(t.folders), ParentsIn(rows);
    forall f | f in q
      ensures f in p && q[f] == p[f]
    {
      var r :| r in rows && r.id == f;
      assert q[f] == ListKey(IdsOf(rows), r);
    }
    SubtableAcyclic(p, q);
  }

  lemma {:induction false} NothingDangles(t: Tables, suite: Id, folders: seq<Row>, items: seq<Row>)
    requires Valid(t) && FoldersOfSuite(t, suite, folders) && ItemsOfSuite(t, suite, items)
    ensures DanglingItems(items, IdsOf(folders)) == []
    ensures forall it :: it in items ==> it.within != Some("")
  {
    forall it | it in items && it.within.Some?
      ensures it.within.value in IdsOf(folders) && it.within.value != ""
    {
      assert t.items[it.id].folder.value in t.folders;
    }
    FilterNone(items, Dangling(IdsOf(folders)));
  }

  /**
   * On valid tables a suite's run holds every one of its items exactly once and no other, in the documented
   * depth-first order, with nothing left over at the end.
   */
  lemma {:induction false} ListItemsBySuite(t: Tables, suite: Id, folders: seq<Row>, items: seq<Row>)
    requires Valid(t) && FoldersOfSuite(t, suite, folders) && ItemsOfSuite(t, suite, items)
    ensures DistinctIds(ItemOrder(items, folders))
    ensures forall i :: i in IdsOf(ItemOrder(items, folders)) <==> i in t.items && t.items[i].suite == suite
    ensures multiset(ItemOrder(items, folders)) == multiset(items)
    ensures Acyclic(ParentsIn(folders)) && ItemOrder(items, folders) == DocumentedOrder(items, folders)
    ensures DanglingItems(items, IdsOf(folders)) == []
  {
    SuiteParents(t, suite, folders);
    NothingDangles(t, suite, folders, items);
    PermutationIff(items, folders);
    PermutedDistinct(ItemOrder(items, folders), items);
    ItemOrderIsDocumented(items, folders);
  }
}
