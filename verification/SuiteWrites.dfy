/** What the requests of `SuiteTables` write, column by column. */
module SuiteWrites {
  import opened Options
  import opened ParentForest
  import opened SiblingOrder
  import opened Siblings
  import opened SuiteTables

  /** The folders of one suite under one parent. */
  ghost function FoldersAt(t: Tables, suite: Id, parent: Option<Id>): set<Id> {
    set f | f in t.folders && t.folders[f].suite == suite && t.folders[f].parent == parent
  }

  ghost function ItemsAt(t: Tables, suite: Id, folder: Option<Id>): set<Id> {
    set i | i in t.items && t.items[i].suite == suite && t.items[i].folder == folder
  }

  /** The numbers of a group are 0, 1, 2, and so on; the moved row is just before the named sibling, or last. */
  ghost predicate NumberedAround(sorts: map<Id, int>, x: Id, before: Option<Id>) {
    && x in sorts
    && (forall a :: a in sorts ==> 0 <= sorts[a] < |sorts|)
    && (forall a, b :: a in sorts && b in sorts && a != b ==> sorts[a] != sorts[b])
    && (if before.Some? && before.value in sorts && before.value != x
        then sorts[before.value] == sorts[x] + 1
        else sorts[x] == |sorts| - 1)
  }

  /** A move writes `sort_order` of the rows of the target group only, and `parent_id` of the moved row only. */
  lemma FolderMoveWrites(t: Tables, t': Tables, x: Id, suite: Id, parent: Option<Id>, before: Option<Id>)
    requires FolderMoved(t, t', x, suite, parent, before)
    ensures x in t'.folders && t'.folders.Keys == t.folders.Keys
    ensures NumberedAround(map f | f in FoldersAt(t', suite, parent) :: t'.folders[f].sort, x, before)
    ensures forall f :: f in t'.folders && !(t'.folders[f].suite == suite && t'.folders[f].parent == parent) ==>
              t'.folders[f].sort == t.folders[f].sort
    ensures forall f :: f in t'.folders ==> t'.folders[f].createdAt == t.folders[f].createdAt && t'.folders[f].payload == t.folders[f].payload
    ensures forall f :: f in t'.folders && f != x ==> t'.folders[f].parent == t.folders[f].parent
  {
    var group := FolderGroup(t'.folders, suite, parent).Keys;
    assert group == FoldersAt(t', suite, parent);
    assert SortOf(t'.folders, group) == map f | f in FoldersAt(t', suite, parent) :: t'.folders[f].sort;
  }

  /** A move writes `sort_order` and `updated_at` of the moved row and the target group only, and `folder_id` of the moved
      row only. */
  lemma ItemMoveWrites(t: Tables, t': Tables, x: Id, suite: Id, folder: Option<Id>, before: Option<Id>, now: int)
    requires ItemMoved(t, t', x, suite, folder, before, now)
    ensures x in t'.items && t'.items.Keys == t.items.Keys && t'.folders == t.folders
    ensures NumberedAround(map i | i in ItemsAt(t', suite, folder) + {x} :: t'.items[i].sort, x, before)
    ensures forall i :: i in t'.items && i != x && !(t'.items[i].suite == suite && t'.items[i].folder == folder) ==>
              t'.items[i] == t.items[i]
    ensures forall i :: i in t'.items && i != x && t'.items[i].suite == suite && t'.items[i].folder == folder ==>
              t'.items[i] == t.items[i].(sort := t'.items[i].sort, updatedAt := now)
    ensures t'.items[x] == t.items[x].(folder := folder, sort := t'.items[x].sort, updatedAt := now)
  {
    var group := ItemGroup(t'.items, suite, folder).Keys;
    assert group == ItemsAt(t', suite, folder);
    assert ItemSortOf(t'.items, group + {x}) == map i | i in ItemsAt(t', suite, folder) + {x} :: t'.items[i].sort;
  }

  /** A new row goes behind its siblings: 0 when there is none, otherwise one more than their largest number. */
  ghost predicate Behind(sort: int, sorts: map<Id, int>) {
    && (forall a :: a in sorts ==> sorts[a] < sort)
    && (if sorts == map[] then sort == 0 else exists a :: a in sorts && sorts[a] == sort - 1)
  }

  lemma FolderGoesBehind(t: Tables, t': Tables, id: Id, suite: Id, parent: Option<Id>, payload: string, now: int)
    requires FolderCreated(t, t', id, suite, parent, payload, now)
    ensures t' == t.(folders := t'.folders) && t'.folders - {id} == t.folders
    ensures Behind(t'.folders[id].sort, map f | f in FoldersAt(t, suite, parent) :: t.folders[f].sort)
  {
    var group := FolderGroup(t.folders, suite, parent);
    var sorts := map f | f in FoldersAt(t, suite, parent) :: t.folders[f].sort;
    assert group.Keys == sorts.Keys;
    assert forall a :: a in sorts ==> sorts[a] == group[a].sort;
    if group != map[] {
      var a :| a in group && group[a].sort == t'.folders[id].sort - 1;
      assert a in sorts && sorts[a] == t'.folders[id].sort - 1;
    } else {
      assert sorts == map[];
    }
  }

  lemma ItemGoesBehind(t: Tables, t': Tables, id: Id, suite: Id, folder: Option<Id>, payload: string, now: int)
    requires ItemCreated(t, t', id, suite, folder, payload, now)
    ensures t' == t.(items := t'.items) && t'.items - {id} == t.items
    ensures Behind(t'.items[id].sort, map i | i in ItemsAt(t, suite, folder) :: t.items[i].sort)
  {
    var group := ItemGroup(t.items, suite, folder);
    var sorts := map i | i in ItemsAt(t, suite, folder) :: t.items[i].sort;
    assert group.Keys == sorts.Keys;
    assert forall a :: a in sorts ==> sorts[a] == group[a].sort;
    if group != map[] {
      var a :| a in group && group[a].sort == t'.items[id].sort - 1;
      assert a in sorts && sorts[a] == t'.items[id].sort - 1;
    } else {
      assert sorts == map[];
    }
  }

  /** A patch writes the columns it names and `updated_at`, of that row only. */
  lemma UpdateWrites(t: Tables, t': Tables, x: Id, folder: Option<Option<Id>>, sort: Option<int>, payload: Option<string>, now: int)
    requires ItemUpdated(t, t', x, folder, sort, payload, now)
    ensures t'.folders == t.folders && t'.suites == t.suites && t'.items - {x} == t.items - {x} && x in t'.items
    ensures t'.items[x].folder == (if folder.Some? then folder.value else t.items[x].folder)
    ensures t'.items[x].sort == (if sort.Some? then sort.value else t.items[x].sort)
    ensures t'.items[x].payload == (if payload.Some? then payload.value else t.items[x].payload)
    ensures t'.items[x].updatedAt == now
    ensures t'.items[x].suite == t.items[x].suite && t'.items[x].createdAt == t.items[x].createdAt
  {
  }
}
