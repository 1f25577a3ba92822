/** `test-suite-folder.repo.ts` and `test-suite-item.repo.ts`: the statements each operation runs,
    proved to have the effects `SuiteTables` describes. */
module SuiteRepo {
  import opened Options
  import opened SiblingOrder
  import opened ParentForest
  import opened Siblings
  import opened SuiteTables

  /** `undefined` for a missing row; a foreign key failure rolls the transaction back and throws. */
  datatype Reply = Done | NotFound | Refused | ForeignKeyFailed

  /** The reordered group and the number each of its rows gets. */
  method Renumbering(keys: map<Id, Rank>, x: Id, before: Option<Id>) returns (ordered: seq<Id>, ghost order: map<Id, int>)
    ensures Numbers(ordered, order) && Placed(order, keys, x, before)
  {
    ordered := Reordered(keys, x, before);
    order := Positions(ordered);
    PositionsNumber(ordered);
  }

  /** The unseen children go to the end of the queue, each once. */
  method PushUnseen(children: seq<Id>, queue: seq<Id>, known: set<Id>) returns (ids: seq<Id>, seen: set<Id>)
    requires NoDuplicates(queue) && forall f :: f in queue <==> f in known
    ensures queue <= ids && NoDuplicates(ids)
    ensures forall f :: f in ids <==> f in seen
    ensures forall f :: f in seen <==> f in known || f in children
    ensures known <= seen && (seen == known ==> ids == queue)
  {
    ids, seen := queue, known;
    for c := 0 to |children|
      invariant queue <= ids && NoDuplicates(ids)
      invariant forall f :: f in ids <==> f in seen
      invariant forall f :: f in seen <==> f in known || f in children[..c]
      invariant known <= seen && (seen == known ==> ids == queue)
    {
      if children[c] !in seen {
        seen := seen + {children[c]};
        ids := ids + [children[c]];
      }
      assert children[..c + 1] == children[..c] + [children[c]];
    }
    assert children[..|children|] == children;
  }

  lemma ChildBelow(folders: map<Id, Folder>, c: Id, f: Id, root: Id)
    requires c in folders && folders[c].parent == Some(f) && Below(ParentsOf(folders), f, root)
    ensures Below(ParentsOf(folders), c, root)
  {
    BelowParent(ParentsOf(folders), c, root);
  }

  /** A set of folders beneath `root` that holds its own children is the whole branch. */
  lemma ClosedIsBranch(folders: map<Id, Folder>, seen: set<Id>, root: Id)
    requires root in seen && seen <= folders.Keys + {root}
    requires forall f :: f in seen ==> Below(ParentsOf(folders), f, root)
    requires forall c :: c in folders && folders[c].parent.Some? && folders[c].parent.value in seen ==> c in seen
    ensures forall f :: f in seen <==> f == root || f in Subtree(ParentsOf(folders), root)
  {
    var p := ParentsOf(folders);
    assert p.Keys == folders.Keys;
    ClosedIsSubtree(p, seen, root);
  }

  lemma StepKeepsBoth(t: Tables, r: Request, t': Tables)
    requires Rooted(t) && FreshId(t, r) && Step(t, r, t')
    ensures Rooted(t')
    ensures Valid(t) ==> (Valid(t') <==> !Accepted(t, r) || Fits(t, r))
  {
    StepKeepsRooted(t, r, t');
    if Valid(t) {
      StepKeepsIff(t, r, t');
    }
  }

  class SuiteDb {
    var suites: set<Id>
    var folders: map<Id, Folder>
    var items: map<Id, Item>

    constructor (suites: set<Id>)
      ensures Now() == Tables(suites, map[], map[]) && Valid(Now())
    {
      this.suites, folders, items := suites, map[], map[];
    }

    function Now(): Tables
      reads this
    {
      Tables(suites, folders, items)
    }

    /** `SELECT id ... WHERE parent_id = ?`, in whatever order the rows come. */
    method ChildrenOf(f: Id) returns (ids: seq<Id>)
      ensures forall c :: c in ids <==> c in folders && folders[c].parent == Some(f)
    {
      ids := [];
      var rest := set c | c in folders && folders[c].parent == Some(f);
      while rest != {}
        invariant forall c :: c in ids || c in rest <==> c in folders && folders[c].parent == Some(f)
        decreases rest
      {
        var c :| c in rest;
        ids, rest := ids + [c], rest - {c};
      }
    }

    /** The folder and everything beneath it, each once, on any parent graph. */
    method CollectSubtreeIds(root: Id) returns (ids: seq<Id>)
      ensures NoDuplicates(ids)
      ensures forall f :: f in ids <==> f == root || f in Subtree(ParentsOf(folders), root)
    {
      ids := [root];
      var seen := {root};
      var i := 0;
      ghost var p := ParentsOf(folders);
      assert Ancestor(p, root, 0) == Some(root);
      while i < |ids|
        invariant i <= |ids|
        invariant NoDuplicates(ids)
        invariant (forall f :: f in seen <==> f in ids) && root in seen
        invariant seen <= folders.Keys + {root}
        invariant forall f :: f in seen ==> Below(p, f, root)
        invariant forall c, k :: 0 <= k < i && c in folders && folders[c].parent == Some(ids[k]) ==> c in seen
        decreases folders.Keys + {root} - seen, |ids| - i
      {
        var parent := ids[i];
        var children := ChildrenOf(parent);
        forall c | c in children
          ensures Below(p, c, root)
        {
          ChildBelow(folders, c, parent, root);
        }
        ids, seen := PushUnseen(children, ids, seen);
        i := i + 1;
      }
      ClosedIsBranch(folders, seen, root);
    }

    /** Exactly "is `ancestor` or lies beneath it", also on cyclic or dangling parents. The walk up stops at the empty id. */
    method IsDescendantOf(descendant: Id, ancestor: Id) returns (b: bool)
      ensures b <==> Below(ParentsOf(folders) - {""}, descendant, ancestor)
    {
      ghost var p := ParentsOf(folders) - {""};
      assert Ancestor(p, descendant, 0) == Some(descendant);
      if descendant == ancestor {
        return true;
      }
      var cur := Some(descendant);
      var seen := {};
      ghost var k: nat := 0;
      while cur.Some? && cur.value != "" && cur.value !in seen
        invariant cur == Ancestor(p, descendant, k)
        invariant descendant in seen || cur == Some(descendant)
        invariant seen <= folders.Keys
        invariant ancestor !in seen && cur != Some(ancestor)
        invariant forall f :: f in seen && folders[f].parent.Some? ==> folders[f].parent.value in seen || cur == folders[f].parent
        decreases folders.Keys - seen
      {
        if cur.value !in folders {
          NeverReached(p, seen + {cur.value}, descendant, ancestor);
          return false;
        }
        seen := seen + {cur.value};
        AncestorAdd(p, descendant, k, 1);
        k := k + 1;
        var parent := folders[cur.value].parent;
        assert Ancestor(p, descendant, k) == parent by { assert p[cur.value] == parent; OneUp(p, cur.value); }
        if parent == Some(ancestor) {
          return true;
        }
        cur := parent;
      }
      var all := if cur.Some? then seen + {cur.value} else seen;
      NeverReached(p, all, descendant, ancestor);
      b := false;
    }

    /** `COALESCE(MAX(sort_order), -1) + 1` over a sibling group. */
    static method NextSort(group: map<Id, Rank>) returns (next: int)
      ensures IsMax(next - 1, group)
    {
      var m := -1;
      if group != map[] {
        var some :| some in group;
        m := group[some].sort;
        var rest := group.Keys;
        ghost var top := some;
        while rest != {}
          invariant rest <= group.Keys && top in group && group[top].sort == m
          invariant forall a :: a in group && a !in rest ==> group[a].sort <= m
          decreases rest
        {
          var a :| a in rest;
          if group[a].sort > m {
            m, top := group[a].sort, a;
          }
          rest := rest - {a};
        }
      }
      next := m + 1;
    }

    method CreateFolder(id: Id, suite: Id, parent: Option<Id>, payload: string, now: int) returns (r: Reply)
      requires id != "" && id !in folders
      modifies this`folders
      ensures r == Done <==> old(Accepted(Now(), Request.CreateFolder(id, suite, parent, payload, now)))
      ensures if r == Done then FolderCreated(old(Now()), Now(), id, suite, parent, payload, now) else Now() == old(Now())
    {
      var next := NextSort(FolderGroup(folders, suite, parent));
      if suite !in suites || (parent.Some? && parent.value !in folders) {
        return ForeignKeyFailed;
      }
      folders := folders[id := Folder(suite, parent, next, now, payload)];
      r := Done;
    }

    method CreateItem(id: Id, suite: Id, folder: Option<Id>, payload: string, now: int) returns (r: Reply)
      requires id != "" && id !in items
      modifies this`items
      ensures r == Done <==> old(Accepted(Now(), Request.CreateItem(id, suite, folder, payload, now)))
      ensures if r == Done then ItemCreated(old(Now()), Now(), id, suite, folder, payload, now) else Now() == old(Now())
    {
      var next := NextSort(ItemGroup(items, suite, folder));
      if suite !in suites || (folder.Some? && folder.value !in folders) {
        return ForeignKeyFailed;
      }
      items := items[id := Item(suite, folder, next, now, now, payload)];
      r := Done;
    }

    /** The row delete with its two cascades; nothing happens when the row is missing. */
    method DeleteFolder(id: Id) returns (deleted: bool)
      modifies this`folders, this`items
      ensures deleted <==> id in old(folders)
      ensures if deleted then FolderDeleted(old(Now()), Now(), id) else Now() == old(Now())
    {
      if id !in folders {
        return false;
      }
      var gone := CollectSubtreeIds(id);
      assert Ancestor(ParentsOf(folders), id, 0) == Some(id);
      items := map i | i in items && !(items[i].folder.Some? && items[i].folder.value in gone) :: items[i];
      folders := map f | f in folders && f !in gone :: folders[f];
      deleted := true;
    }

    method DeleteItem(id: Id) returns (deleted: bool)
      modifies this`items
      ensures deleted <==> id in old(items)
      ensures if deleted then ItemDeleted(old(Now()), Now(), id) else Now() == old(Now())
    {
      deleted := id in items;
      items := map i | i in items && i != id :: items[i];
      assert !deleted ==> items == old(items);
    }

    /** The two `UPDATE ... SET suite_id` of a move across suites: exactly the branch and its items. */
    method Rehome(id: Id, suite: Id)
      requires id in folders
      modifies this`folders, this`items
      ensures var branch := old(Rehomed(Now(), id, suite));
              && folders == (map f | f in old(folders) :: if f in branch then old(folders)[f].(suite := suite) else old(folders)[f])
              && items == (map i | i in old(items) ::
                   if old(items)[i].folder.Some? && old(items)[i].folder.value in branch
                   then old(items)[i].(suite := suite) else old(items)[i])
    {
      if folders[id].suite != suite {
        var subtree := CollectSubtreeIds(id);
        assert Ancestor(ParentsOf(folders), id, 0) == Some(id);
        folders := map f | f in folders :: if f in subtree then folders[f].(suite := suite) else folders[f];
        items := map i | i in items ::
          if items[i].folder.Some? && items[i].folder.value in subtree then items[i].(suite := suite) else items[i];
      }
    }

    /** `ordered.forEach((rowId, i) => UPDATE ... SET sort_order = i)`. */
    method RenumberFolders(ordered: seq<Id>, ghost order: map<Id, int>)
      requires Numbers(ordered, order) && order.Keys <= folders.Keys
      modifies this`folders
      ensures FoldersNumbered(old(folders), folders, order)
    {
      for i := 0 to |ordered|
        invariant folders.Keys == old(folders).Keys
        invariant forall f :: f in folders ==>
                    folders[f] == if f in order && order[f] < i then old(folders)[f].(sort := order[f]) else old(folders)[f]
      {
        folders := folders[ordered[i] := folders[ordered[i]].(sort := i)];
      }
    }

    method RenumberItems(ordered: seq<Id>, now: int, ghost order: map<Id, int>)
      requires Numbers(ordered, order) && order.Keys <= items.Keys
      modifies this`items
      ensures ItemsNumbered(old(items), items, order, now)
    {
      for n := 0 to |ordered|
        invariant items.Keys == old(items).Keys
        invariant forall i :: i in items ==>
                    items[i] == if i in order && order[i] < n then old(items)[i].(sort := order[i], updatedAt := now) else old(items)[i]
      {
        items := items[ordered[n] := items[ordered[n]].(sort := n, updatedAt := now)];
      }
    }

    /** Splices the folder into its group and renumbers the group. */
    method PlaceFolder(id: Id, suite: Id, parent: Option<Id>, before: Option<Id>) returns (ghost order: map<Id, int>)
      requires id in FolderGroup(folders, suite, parent)
      modifies this`folders
      ensures Placed(order, FolderGroup(old(folders), suite, parent), id, before)
      ensures FoldersNumbered(old(folders), folders, order)
    {
      var ordered;
      ordered, order := Renumbering(FolderGroup(folders, suite, parent), id, before);
      RenumberFolders(ordered, order);
    }

    /** `suite_id` of the branch and `parent_id` of the folder, before siblings are renumbered. */
    method Detach(id: Id, suite: Id, parent: Option<Id>)
      requires id in folders
      modifies this`folders, this`items
      ensures Now() == old(Parted(Now(), Rehomed(Now(), id, suite), id, suite, parent))
      ensures id in FolderGroup(folders, suite, parent)
    {
      RehomedSelf(Now(), id, suite);
      Rehome(id, suite);
      folders := folders[id := folders[id].(parent := parent)];
    }

    method MoveFolder(id: Id, suite: Id, parent: Option<Id>, before: Option<Id>) returns (r: Reply)
      modifies this`folders, this`items
      ensures r == NotFound <==> id !in old(folders)
      ensures r == Done <==> old(
                && id in folders
                && (suite == folders[id].suite || suite in suites)
                && (parent.Some? ==> parent.value in folders))
      ensures if r == Done then FolderMoved(old(Now()), Now(), id, suite, parent, before) else Now() == old(Now())
    {
      if id !in folders {
        return NotFound;
      }
      if (folders[id].suite != suite && suite !in suites) || (parent.Some? && parent.value !in folders) {
        return ForeignKeyFailed;
      }
      ghost var t, branch := Now(), Rehomed(Now(), id, suite);
      Detach(id, suite, parent);
      ghost var order := PlaceFolder(id, suite, parent, before);
      NumberedIsMoved(t, Now(), branch, id, suite, parent, before, order);
      r := Done;
    }

    /** The handler in front of `moveFolder`: refuses a target inside the moved branch. */
    method FolderMoveRequest(id: Id, suite: Id, parent: Option<Id>, before: Option<Id>) returns (r: Reply)
      requires ForeignKeys(Now())
      modifies this`folders, this`items
      ensures r == Done <==> old(Accepted(Now(), Request.MoveFolder(id, suite, parent, before)))
      ensures old(Accepted(Now(), Request.MoveFolder(id, suite, parent, before))) || Now() == old(Now())
      ensures old(Accepted(Now(), Request.MoveFolder(id, suite, parent, before))) ==>
                FolderMoved(old(Now()), Now(), id, suite, parent, before)
    {
      if parent.Some? {
        var inside := IsDescendantOf(parent.value, id);
        assert ParentsOf(folders) - {""} == ParentsOf(folders);
        if inside {
          return Refused;
        }
      }
      r := MoveFolder(id, suite, parent, before);
    }

    method PlaceItem(id: Id, suite: Id, folder: Option<Id>, before: Option<Id>, now: int) returns (ghost order: map<Id, int>)
      requires id in items
      modifies this`items
      ensures Placed(order, ItemGroup(old(items), suite, folder), id, before)
      ensures ItemsNumbered(old(items), items, order, now)
    {
      var ordered;
      ordered, order := Renumbering(ItemGroup(items, suite, folder), id, before);
      RenumberItems(ordered, now, order);
    }

    method MoveItem(id: Id, suite: Id, folder: Option<Id>, before: Option<Id>, now: int) returns (r: Reply)
      modifies this`items
      ensures r == NotFound <==> id !in old(items)
      ensures r == Done <==> id in old(items) && (folder.Some? ==> folder.value in folders)
      ensures if r == Done then ItemMoved(old(Now()), Now(), id, suite, folder, before, now) else Now() == old(Now())
    {
      if id !in items {
        return NotFound;
      }
      if folder.Some? && folder.value !in folders {
        return ForeignKeyFailed;
      }
      items := items[id := items[id].(folder := folder, updatedAt := now)];
      ghost var parted := items;
      ghost var order := PlaceItem(id, suite, folder, before, now);
      NumberedIsItemMoved(old(Now()), parted, Now(), id, suite, folder, before, now, order);
      r := Done;
    }

    /** The handler in front of `moveItem`: both the item and the folder must be of the named suite. */
    method ItemMoveRequest(id: Id, suite: Id, folder: Option<Id>, before: Option<Id>, now: int) returns (r: Reply)
      modifies this`items
      ensures r == Done <==> old(Accepted(Now(), Request.MoveItem(id, suite, folder, before, now)))
      ensures old(Accepted(Now(), Request.MoveItem(id, suite, folder, before, now))) || Now() == old(Now())
      ensures old(Accepted(Now(), Request.MoveItem(id, suite, folder, before, now))) ==>
                ItemMoved(old(Now()), Now(), id, suite, folder, before, now)
    {
      if id !in items {
        return NotFound;
      }
      if items[id].suite != suite {
        return Refused;
      }
      if folder.Some? && (folder.value !in folders || folders[folder.value].suite != suite) {
        return Refused;
      }
      r := MoveItem(id, suite, folder, before, now);
    }

    /** `updateItem`, which the handler passes every patch on to. */
    method UpdateItem(id: Id, folder: Option<Option<Id>>, sort: Option<int>, payload: Option<string>, now: int) returns (r: Reply)
      modifies this`items
      ensures r == NotFound <==> id !in old(items)
      ensures r == Done <==> old(Accepted(Now(), Request.UpdateItem(id, folder, sort, payload, now)))
      ensures if r == Done then ItemUpdated(old(Now()), Now(), id, folder, sort, payload, now) else Now() == old(Now())
    {
      if id !in items {
        return NotFound;
      }
      if folder.Some? && folder.value.Some? && folder.value.value !in folders {
        return ForeignKeyFailed;
      }
      items := items[id := Updated(items[id], folder, sort, payload, now)];
      r := Done;
    }

    method CreateSuite(id: Id)
      modifies this`suites
      ensures Now() == old(Now()).(suites := old(suites) + {id})
    {
      suites := suites + {id};
    }

    /** The folders a cascade from one suite reaches. */
    method CollectUnder(suite: Id) returns (gone: set<Id>)
      ensures gone == FoldersUnder(Now(), suite)
    {
      gone := {};
      var rest := set f | f in folders && folders[f].suite == suite;
      while rest != {}
        invariant forall f :: f in rest ==> f in folders && folders[f].suite == suite
        invariant gone <= FoldersUnder(Now(), suite)
        invariant forall f, g :: f in folders && g in folders && g !in rest && folders[g].suite == suite ==>
                    Below(ParentsOf(folders), f, g) ==> f in gone
        decreases rest
      {
        var g :| g in rest;
        var ids := CollectSubtreeIds(g);
        BelowSelf(ParentsOf(folders), g);
        gone, rest := gone + (set f | f in ids), rest - {g};
      }
    }

    /** The row delete with its cascades: folders and items by suite, and what is left in those folders. */
    method DeleteSuite(id: Id)
      requires ForeignKeys(Now())
      modifies this
      ensures if id in old(suites) then SuiteDeleted(old(Now()), Now(), id) else Now() == old(Now())
    {
      if id !in suites {
        return;
      }
      var gone := CollectUnder(id);
      items := map i | i in items && items[i].suite != id && !(items[i].folder.Some? && items[i].folder.value in gone) :: items[i];
      folders := map f | f in folders && f !in gone :: folders[f];
      suites := suites - {id};
    }

    /** Any request, through its handler. */
    method Handle(r: Request)
      requires Rooted(Now()) && FreshId(Now(), r)
      modifies this
      ensures Step(old(Now()), r, Now())
      ensures Rooted(Now())
      ensures old(Valid(Now())) ==> (Valid(Now()) <==> old(!Accepted(Now(), r) || Fits(Now(), r)))
    {
      ghost var before := Now();
      match r {
        case CreateFolder(id, suite, parent, payload, now) => var _ := CreateFolder(id, suite, parent, payload, now);
        case DeleteFolder(id) => var _ := DeleteFolder(id);
        case MoveFolder(id, suite, parent, b) => var _ := FolderMoveRequest(id, suite, parent, b);
        case CreateItem(id, suite, folder, payload, now) => var _ := CreateItem(id, suite, folder, payload, now);
        case DeleteItem(id) => var _ := DeleteItem(id);
        case MoveItem(id, suite, folder, b, now) => var _ := ItemMoveRequest(id, suite, folder, b, now);
        case UpdateItem(id, folder, sort, payload, now) => var _ := UpdateItem(id, folder, sort, payload, now);
        case CreateSuite(id) => CreateSuite(id);
        case DeleteSuite(id) => DeleteSuite(id);
      }
      StepKeepsBoth(before, r, Now());
    }
  }

  // ---- The move, statement by statement ----

  ghost predicate FoldersNumbered(a: map<Id, Folder>, b: map<Id, Folder>, order: map<Id, int>) {
    && b.Keys == a.Keys
    && forall f :: f in a ==> b[f] == if f in order then a[f].(sort := order[f]) else a[f]
  }

  ghost predicate ItemsNumbered(a: map<Id, Item>, b: map<Id, Item>, order: map<Id, int>, now: int) {
    && b.Keys == a.Keys
    && forall i :: i in a ==> b[i] == if i in order then a[i].(sort := order[i], updatedAt := now) else a[i]
  }

  /** The tables once `suite_id` and `parent_id` are written and before siblings are renumbered. */
  ghost function Parted(t: Tables, branch: set<Id>, x: Id, suite: Id, parent: Option<Id>): Tables
    requires x in t.folders
  {
    Tables(t.suites,
           map f | f in t.folders ::
             var row := if f in branch then t.folders[f].(suite := suite) else t.folders[f];
             if f == x then row.(parent := parent) else row,
           map i | i in t.items ::
             if t.items[i].folder.Some? && t.items[i].folder.value in branch then t.items[i].(suite := suite) else t.items[i])
  }

  lemma RehomedSelf(t: Tables, x: Id, suite: Id)
    requires x in t.folders
    ensures x in Rehomed(t, x, suite) || t.folders[x].suite == suite
  {
    assert Ancestor(ParentsOf(t.folders), x, 0) == Some(x);
  }

  lemma NumberedFolders(a: map<Id, Folder>, b: map<Id, Folder>, order: map<Id, int>, suite: Id, parent: Option<Id>)
    requires FoldersNumbered(a, b, order) && order.Keys == FolderGroup(a, suite, parent).Keys
    ensures FolderGroup(b, suite, parent).Keys == order.Keys
    ensures SortOf(b, order.Keys) == order && KeysOf(a, order.Keys) == FolderGroup(a, suite, parent)
  {
    forall f
      ensures f in FolderGroup(b, suite, parent) <==> f in FolderGroup(a, suite, parent)
    {
      if f in a {
        assert b[f].suite == a[f].suite && b[f].parent == a[f].parent;
      }
    }
  }

  lemma NumberedItems(a: map<Id, Item>, b: map<Id, Item>, order: map<Id, int>, now: int, x: Id, suite: Id, folder: Option<Id>)
    requires x in a && ItemsNumbered(a, b, order, now) && order.Keys == ItemGroup(a, suite, folder).Keys + {x}
    ensures ItemGroup(b, suite, folder).Keys == ItemGroup(a, suite, folder).Keys
    ensures ItemSortOf(b, order.Keys) == order
    ensures ItemKeysOf(a, ItemGroup(a, suite, folder).Keys) == ItemGroup(a, suite, folder)
  {
    forall i
      ensures i in ItemGroup(b, suite, folder) <==> i in ItemGroup(a, suite, folder)
    {
      if i in a {
        assert b[i].suite == a[i].suite && b[i].folder == a[i].folder;
      }
    }
  }

  lemma NumberedRows(t: Tables, t': Tables, branch: set<Id>, x: Id, suite: Id, parent: Option<Id>, order: map<Id, int>)
    requires x in t.folders
    requires var m := Parted(t, branch, x, suite, parent);
             && order.Keys == FolderGroup(m.folders, suite, parent).Keys
             && t'.suites == m.suites && t'.items == m.items && FoldersNumbered(m.folders, t'.folders, order)
    ensures RowsMoved(t, t', branch, x, suite, parent)
    ensures FolderGroup(t'.folders, suite, parent).Keys == order.Keys
    ensures SortOf(t'.folders, order.Keys) == order
    ensures KeysOf(t.folders, order.Keys) == FolderGroup(Parted(t, branch, x, suite, parent).folders, suite, parent)
  {
    var m := Parted(t, branch, x, suite, parent);
    NumberedFolders(m.folders, t'.folders, order, suite, parent);
    assert KeysOf(t.folders, order.Keys) == KeysOf(m.folders, order.Keys);
  }

  lemma NumberedIsMoved(t: Tables, t': Tables, branch: set<Id>, x: Id, suite: Id, parent: Option<Id>, before: Option<Id>, order: map<Id, int>)
    requires x in t.folders && branch == Rehomed(t, x, suite)
    requires var m := Parted(t, branch, x, suite, parent);
             && Placed(order, FolderGroup(m.folders, suite, parent), x, before)
             && x in FolderGroup(m.folders, suite, parent)
             && t'.suites == m.suites && t'.items == m.items && FoldersNumbered(m.folders, t'.folders, order)
    ensures FolderMoved(t, t', x, suite, parent, before)
  {
    var m := Parted(t, branch, x, suite, parent);
    assert order.Keys == FolderGroup(m.folders, suite, parent).Keys;
    NumberedRows(t, t', branch, x, suite, parent, order);
  }

  lemma NumberedItemRows(t: Tables, parted: map<Id, Item>, t': Tables, x: Id, suite: Id, folder: Option<Id>, now: int,
                         order: map<Id, int>)
    requires x in t.items && parted == t.items[x := t.items[x].(folder := folder, updatedAt := now)]
    requires order.Keys == ItemGroup(parted, suite, folder).Keys + {x}
    requires t'.suites == t.suites && t'.folders == t.folders && ItemsNumbered(parted, t'.items, order, now)
    ensures ItemRowsMoved(t, t', x, suite, folder, now)
    ensures var group := ItemGroup(t'.items, suite, folder).Keys;
            && ItemSortOf(t'.items, group + {x}) == order
            && ItemKeysOf(t.items, group) == ItemGroup(parted, suite, folder)
  {
    NumberedItems(parted, t'.items, order, now, x, suite, folder);
    var group := ItemGroup(t'.items, suite, folder).Keys;
    assert ItemKeysOf(t.items, group) == ItemKeysOf(parted, group);
  }

  lemma NumberedIsItemMoved(t: Tables, parted: map<Id, Item>, t': Tables, x: Id, suite: Id, folder: Option<Id>, before: Option<Id>,
                            now: int, order: map<Id, int>)
    requires x in t.items && parted == t.items[x := t.items[x].(folder := folder, updatedAt := now)]
    requires Placed(order, ItemGroup(parted, suite, folder), x, before)
    requires t'.suites == t.suites && t'.folders == t.folders && ItemsNumbered(parted, t'.items, order, now)
    ensures ItemMoved(t, t', x, suite, folder, before, now)
  {
    NumberedItemRows(t, parted, t', x, suite, folder, now, order);
  }

  /** A set of rows beneath `root` that holds the children of its members is the whole subtree. */
  lemma ClosedIsSubtree(p: Parents, s: set<Id>, root: Id)
    requires root in s && s <= p.Keys + {root}
    requires forall f :: f in s ==> Below(p, f, root)
    requires forall c :: c in p && p[c].Some? && p[c].value in s ==> c in s
    ensures s == Subtree(p, root) + {root}
  {
    forall f | f in Subtree(p, root)
      ensures f in s
    {
      var k: nat :| Ancestor(p, f, k) == Some(root);
      BelowStaysIn(p, s, f, root, k);
    }
  }

  lemma OneUp(p: Parents, f: Id)
    ensures Ancestor(p, f, 1) == if f in p then p[f] else None
  {
    if f in p && p[f].Some? {
      assert Ancestor(p, p[f].value, 0) == p[f];
    }
  }

  /** When the chain stays in a set without `a`, nothing of it is `a`. */
  lemma NeverReached(p: Parents, s: set<Id>, f: Id, a: Id)
    requires f in s && a !in s
    requires forall r :: r in s && r in p && p[r].Some? ==> p[r].value in s
    ensures !Below(p, f, a)
  {
    forall k: nat
      ensures Ancestor(p, f, k) != Some(a)
    {
      ChainStaysIn(p, s, f, k);
    }
  }
}
