/** The two tables behind a test suite's tree, what each request does to them, and the invariant
    every run of requests keeps. */
module SuiteTables {
  import opened Options
  import opened SiblingOrder
  import opened ParentForest
  import opened Siblings

  /** `payload` stands for the columns no tree operation reads or writes. */
  datatype Folder = Folder(suite: Id, parent: Option<Id>, sort: int, createdAt: int, payload: string)

  datatype Item = Item(suite: Id, folder: Option<Id>, sort: int, createdAt: int, updatedAt: int, payload: string)

  datatype Tables = Tables(suites: set<Id>, folders: map<Id, Folder>, items: map<Id, Item>)

  function ParentsOf(folders: map<Id, Folder>): Parents {
    map f | f in folders :: folders[f].parent
  }

  // ---- The invariant ----

  /** What the foreign keys enforce. Ids are UUIDs, never empty. */
  ghost predicate ForeignKeys(t: Tables) {
    && "" !in t.folders
    && (forall f :: f in t.folders ==> t.folders[f].suite in t.suites)
    && (forall f :: f in t.folders && t.folders[f].parent.Some? ==> t.folders[f].parent.value in t.folders)
    && (forall i :: i in t.items ==> t.items[i].suite in t.suites)
    && (forall i :: i in t.items && t.items[i].folder.Some? ==> t.items[i].folder.value in t.folders)
  }

  /** A folder lies in its parent's suite. */
  ghost predicate FoldersInSuite(folders: map<Id, Folder>) {
    forall f :: f in folders && folders[f].parent.Some? ==>
      folders[f].parent.value in folders && folders[f].suite == folders[folders[f].parent.value].suite
  }

  /** An item lies in its folder's suite. */
  ghost predicate ItemsInSuite(t: Tables) {
    forall i :: i in t.items && t.items[i].folder.Some? ==>
      t.items[i].folder.value in t.folders && t.items[i].suite == t.folders[t.items[i].folder.value].suite
  }

  predicate FolderSiblings(folders: map<Id, Folder>, f: Id, g: Id)
    requires f in folders && g in folders
  {
    folders[f].suite == folders[g].suite && folders[f].parent == folders[g].parent
  }

  predicate ItemSiblings(items: map<Id, Item>, i: Id, j: Id)
    requires i in items && j in items
  {
    items[i].suite == items[j].suite && items[i].folder == items[j].folder
  }

  /** No two sibling folders share a `sort_order`. */
  ghost predicate FoldersDistinct(folders: map<Id, Folder>) {
    forall f, g :: f in folders && g in folders && f != g && FolderSiblings(folders, f, g) ==> folders[f].sort != folders[g].sort
  }

  /** No two sibling items share a `sort_order`. */
  ghost predicate ItemsDistinct(items: map<Id, Item>) {
    forall i, j :: i in items && j in items && i != j && ItemSiblings(items, i, j) ==> items[i].sort != items[j].sort
  }

  /** Every row named is there, and the folders form a tree, whatever suites they are in. */
  ghost predicate Rooted(t: Tables) {
    ForeignKeys(t) && Acyclic(ParentsOf(t.folders))
  }

  ghost predicate Valid(t: Tables) {
    && Rooted(t)
    && FoldersInSuite(t.folders)
    && ItemsInSuite(t)
    && FoldersDistinct(t.folders)
    && ItemsDistinct(t.items)
  }

  // ---- Sibling groups, as the WHERE clauses select them ----

  function FolderGroup(folders: map<Id, Folder>, suite: Id, parent: Option<Id>): map<Id, Rank> {
    map f | f in folders && folders[f].suite == suite && folders[f].parent == parent ::
      Rank(folders[f].sort, folders[f].createdAt)
  }

  function ItemGroup(items: map<Id, Item>, suite: Id, folder: Option<Id>): map<Id, Rank> {
    map i | i in items && items[i].suite == suite && items[i].folder == folder ::
      Rank(items[i].sort, items[i].createdAt)
  }

  /** `COALESCE(MAX(sort_order), -1)`. */
  ghost predicate IsMax(m: int, group: map<Id, Rank>) {
    && (forall a :: a in group ==> group[a].sort <= m)
    && (if group == map[] then m == -1 else exists a :: a in group && group[a].sort == m)
  }

  // ---- What a successful operation does ----

  ghost predicate FolderCreated(t: Tables, t': Tables, id: Id, suite: Id, parent: Option<Id>, payload: string, now: int) {
    && id !in t.folders && id in t'.folders
    && t' == t.(folders := t.folders[id := t'.folders[id]])
    && t'.folders[id] == Folder(suite, parent, t'.folders[id].sort, now, payload)
    && IsMax(t'.folders[id].sort - 1, FolderGroup(t.folders, suite, parent))
  }

  ghost predicate ItemCreated(t: Tables, t': Tables, id: Id, suite: Id, folder: Option<Id>, payload: string, now: int) {
    && id !in t.items && id in t'.items
    && t' == t.(items := t.items[id := t'.items[id]])
    && t'.items[id] == Item(suite, folder, t'.items[id].sort, now, now, payload)
    && IsMax(t'.items[id].sort - 1, ItemGroup(t.items, suite, folder))
  }

  /** The cascade: the folder, everything beneath it, and every item in those folders. */
  ghost predicate FolderDeleted(t: Tables, t': Tables, x: Id) {
    var gone := Subtree(ParentsOf(t.folders), x);
    && t'.suites == t.suites
    && t'.folders == (map f | f in t.folders && f !in gone :: t.folders[f])
    && t'.items == (map i | i in t.items && !(t.items[i].folder.Some? && t.items[i].folder.value in gone) :: t.items[i])
  }

  ghost predicate ItemDeleted(t: Tables, t': Tables, x: Id) {
    t' == t.(items := map i | i in t.items && i != x :: t.items[i])
  }

  /** Rows whose `suite_id` a move of `x` rewrites: none inside one suite, the whole branch across suites. */
  ghost function Rehomed(t: Tables, x: Id, suite: Id): set<Id>
    requires x in t.folders
  {
    if t.folders[x].suite == suite then {} else Subtree(ParentsOf(t.folders), x)
  }

  /** The columns a folder move writes, `sort_order` aside: `branch` changes suite, `x` changes parent. */
  ghost predicate RowsMoved(t: Tables, t': Tables, branch: set<Id>, x: Id, suite: Id, parent: Option<Id>) {
    && x in t.folders
    && t'.suites == t.suites && t'.folders.Keys == t.folders.Keys && t'.items.Keys == t.items.Keys
    && (forall f :: f in t.folders ==>
          var o, n := t.folders[f], t'.folders[f];
          && n.createdAt == o.createdAt && n.payload == o.payload
          && n.suite == (if f in branch then suite else o.suite)
          && n.parent == (if f == x then parent else o.parent))
    && (forall i :: i in t.items ==>
          t'.items[i] == if t.items[i].folder.Some? && t.items[i].folder.value in branch then t.items[i].(suite := suite) else t.items[i])
    && (forall f :: f in t.folders && f !in FolderGroup(t'.folders, suite, parent) ==> t'.folders[f].sort == t.folders[f].sort)
  }

  ghost predicate FolderRowsMoved(t: Tables, t': Tables, x: Id, suite: Id, parent: Option<Id>) {
    x in t.folders && RowsMoved(t, t', Rehomed(t, x, suite), x, suite, parent)
  }

  ghost function SortOf(folders: map<Id, Folder>, group: set<Id>): map<Id, int>
    requires group <= folders.Keys
  {
    map f | f in group :: folders[f].sort
  }

  ghost function KeysOf(folders: map<Id, Folder>, group: set<Id>): map<Id, Rank>
    requires group <= folders.Keys
  {
    map f | f in group :: Rank(folders[f].sort, folders[f].createdAt)
  }

  /** The target group is renumbered with `x` in its slot and the others in their old order. */
  ghost predicate FolderMoved(t: Tables, t': Tables, x: Id, suite: Id, parent: Option<Id>, before: Option<Id>) {
    && FolderRowsMoved(t, t', x, suite, parent)
    && var group := FolderGroup(t'.folders, suite, parent).Keys;
    Placed(SortOf(t'.folders, group), KeysOf(t.folders, group), x, before)
  }

  ghost predicate ItemRowsMoved(t: Tables, t': Tables, x: Id, suite: Id, folder: Option<Id>, now: int) {
    && x in t.items
    && t'.suites == t.suites && t'.folders == t.folders && t'.items.Keys == t.items.Keys
    && (forall i :: i in t.items ==>
          var renumbered := i == x || i in ItemGroup(t'.items, suite, folder);
          t'.items[i] == t.items[i].(folder := if i == x then folder else t.items[i].folder,
                                     sort := if renumbered then t'.items[i].sort else t.items[i].sort,
                                     updatedAt := if renumbered then now else t.items[i].updatedAt))
  }

  ghost function ItemSortOf(items: map<Id, Item>, group: set<Id>): map<Id, int>
    requires group <= items.Keys
  {
    map i | i in group :: items[i].sort
  }

  ghost function ItemKeysOf(items: map<Id, Item>, group: set<Id>): map<Id, Rank>
    requires group <= items.Keys
  {
    map i | i in group :: Rank(items[i].sort, items[i].createdAt)
  }

  ghost predicate ItemMoved(t: Tables, t': Tables, x: Id, suite: Id, folder: Option<Id>, before: Option<Id>, now: int) {
    && ItemRowsMoved(t, t', x, suite, folder, now)
    && var group := ItemGroup(t'.items, suite, folder).Keys;
    Placed(ItemSortOf(t'.items, group + {x}), ItemKeysOf(t.items, group), x, before)
  }

  /** The columns an item update writes: what the patch leaves out stays. The sort order is not recomputed. */
  function Updated(row: Item, folder: Option<Option<Id>>, sort: Option<int>, payload: Option<string>, now: int): Item {
    row.(folder := if folder.Some? then folder.value else row.folder,
         sort := if sort.Some? then sort.value else row.sort,
         payload := if payload.Some? then payload.value else row.payload,
         updatedAt := now)
  }

  ghost predicate ItemUpdated(t: Tables, t': Tables, x: Id, folder: Option<Option<Id>>, sort: Option<int>, payload: Option<string>,
                              now: int) {
    x in t.items && t' == t.(items := t.items[x := Updated(t.items[x], folder, sort, payload, now)])
  }

  /** The folders a suite's deletion takes along: its own and whatever lies beneath them. */
  ghost function FoldersUnder(t: Tables, suite: Id): set<Id> {
    set f | f in t.folders && exists g :: g in t.folders && t.folders[g].suite == suite && Below(ParentsOf(t.folders), f, g)
  }

  /** The cascades behind `DELETE FROM test_suites`. */
  ghost predicate SuiteDeleted(t: Tables, t': Tables, suite: Id) {
    var gone := FoldersUnder(t, suite);
    && t'.suites == t.suites - {suite}
    && t'.folders == (map f | f in t.folders && f !in gone :: t.folders[f])
    && t'.items == (map i | i in t.items && t.items[i].suite != suite &&
                            !(t.items[i].folder.Some? && t.items[i].folder.value in gone) :: t.items[i])
  }

  // ---- Requests, as the IPC handlers guard them ----

  datatype Request =
    | CreateFolder(id: Id, suite: Id, parent: Option<Id>, payload: string, now: int)
    | DeleteFolder(id: Id)
    | MoveFolder(id: Id, suite: Id, parent: Option<Id>, before: Option<Id>)
    | CreateItem(id: Id, suite: Id, folder: Option<Id>, payload: string, now: int)
    | DeleteItem(id: Id)
    | MoveItem(id: Id, suite: Id, folder: Option<Id>, before: Option<Id>, now: int)
    | UpdateItem(id: Id, patchFolder: Option<Option<Id>>, patchSort: Option<int>, patchPayload: Option<string>, now: int)
    | CreateSuite(id: Id)
    | DeleteSuite(id: Id)

  /** The request goes through: the guards of the handlers and the foreign keys let it. */
  ghost predicate Accepted(t: Tables, r: Request) {
    match r
    case CreateFolder(_, suite, parent, _, _) => suite in t.suites && (parent.Some? ==> parent.value in t.folders)
    case CreateItem(_, suite, folder, _, _) => suite in t.suites && (folder.Some? ==> folder.value in t.folders)
    case DeleteFolder(id) => id in t.folders
    case DeleteItem(id) => id in t.items
    case MoveFolder(id, suite, parent, _) =>
      && id in t.folders && suite in t.suites
      && (parent.Some? ==> parent.value in t.folders && !Below(ParentsOf(t.folders), parent.value, id))
    case MoveItem(id, suite, folder, _, _) =>
      && id in t.items && t.items[id].suite == suite
      && (folder.Some? ==> folder.value in t.folders && t.folders[folder.value].suite == suite)
    case UpdateItem(id, folder, _, _, _) =>
      id in t.items && (folder.Some? && folder.value.Some? ==> folder.value.value in t.folders)
    case CreateSuite(_) => true
    case DeleteSuite(id) => id in t.suites
  }

  /** New ids come from `randomUUID`. */
  predicate FreshId(t: Tables, r: Request) {
    match r
    case CreateFolder(id, _, _, _, _) => id != "" && id !in t.folders
    case CreateItem(id, _, _, _, _) => id != "" && id !in t.items
    case CreateSuite(id) => id !in t.suites
    case _ => true
  }

  ghost predicate Step(t: Tables, r: Request, t': Tables) {
    if !Accepted(t, r) then t' == t
    else match r
      case CreateFolder(id, suite, parent, payload, now) => FolderCreated(t, t', id, suite, parent, payload, now)
      case DeleteFolder(id) => FolderDeleted(t, t', id)
      case MoveFolder(id, suite, parent, before) => FolderMoved(t, t', id, suite, parent, before)
      case CreateItem(id, suite, folder, payload, now) => ItemCreated(t, t', id, suite, folder, payload, now)
      case DeleteItem(id) => ItemDeleted(t, t', id)
      case MoveItem(id, suite, folder, before, now) => ItemMoved(t, t', id, suite, folder, before, now)
      case UpdateItem(id, folder, sort, payload, now) => ItemUpdated(t, t', id, folder, sort, payload, now)
      case CreateSuite(id) => t' == t.(suites := t.suites + {id})
      case DeleteSuite(id) => SuiteDeleted(t, t', id)
  }

  /** The folder a create, folder move or item update names lies in the suite of what goes there. No handler checks this. */
  predicate TargetInSuite(t: Tables, r: Request) {
    match r
    case CreateFolder(_, suite, parent, _, _) => parent.Some? && parent.value in t.folders ==> t.folders[parent.value].suite == suite
    case MoveFolder(_, suite, parent, _) => parent.Some? && parent.value in t.folders ==> t.folders[parent.value].suite == suite
    case CreateItem(_, suite, folder, _, _) => folder.Some? && folder.value in t.folders ==> t.folders[folder.value].suite == suite
    case UpdateItem(id, folder, _, _, _) =>
      id in t.items && folder.Some? && folder.value.Some? && folder.value.value in t.folders ==>
        t.folders[folder.value.value].suite == t.items[id].suite
    case _ => true
  }

  /** No other item of the group an updated item then belongs to has its sort order. No handler checks this either. */
  ghost predicate PlaceFree(t: Tables, r: Request) {
    r.UpdateItem? && r.id in t.items ==>
      var row := Updated(t.items[r.id], r.patchFolder, r.patchSort, r.patchPayload, r.now);
      forall j :: j in t.items && j != r.id && t.items[j].suite == row.suite && t.items[j].folder == row.folder ==>
        t.items[j].sort != row.sort
  }

  ghost predicate Fits(t: Tables, r: Request) {
    TargetInSuite(t, r) && PlaceFree(t, r)
  }

  // ---- Each operation against the tree ----

  lemma CreateFolderKeepsRooted(t: Tables, t': Tables, r: Request)
    requires Rooted(t) && r.CreateFolder? && Accepted(t, r) && FreshId(t, r) && Step(t, r, t')
    ensures Rooted(t')
  {
    var p := ParentsOf(t.folders);
    assert ParentsOf(t'.folders) == p[r.id := r.parent];
    LeafAcyclic(p, r.id, r.parent);
  }

  lemma DeleteFolderKeepsRooted(t: Tables, t': Tables, x: Id)
    requires Rooted(t) && FolderDeleted(t, t', x)
    ensures Rooted(t')
  {
    var p := ParentsOf(t.folders);
    SubtableAcyclic(p, ParentsOf(t'.folders));
    forall f | f in t'.folders && t'.folders[f].parent.Some?
      ensures t'.folders[f].parent.value in t'.folders
    {
      BelowParent(p, f, x);
    }
  }

  lemma MovedParents(t: Tables, t': Tables, r: Request)
    requires r.MoveFolder? && FolderRowsMoved(t, t', r.id, r.suite, r.parent)
    ensures ParentsOf(t'.folders) == ParentsOf(t.folders)[r.id := r.parent]
  {
    var p := ParentsOf(t.folders);
    assert p[r.id := r.parent].Keys == ParentsOf(t'.folders).Keys;
  }

  lemma MovedForeignKeys(t: Tables, t': Tables, r: Request)
    requires ForeignKeys(t) && r.MoveFolder? && Accepted(t, r) && FolderRowsMoved(t, t', r.id, r.suite, r.parent)
    ensures ForeignKeys(t')
  {
    assert forall f :: f in t'.folders ==> f in t.folders && t'.folders[f].createdAt == t.folders[f].createdAt;
  }

  lemma MoveFolderKeepsRooted(t: Tables, t': Tables, r: Request)
    requires Rooted(t) && r.MoveFolder? && Accepted(t, r) && FolderRowsMoved(t, t', r.id, r.suite, r.parent)
    ensures Rooted(t')
  {
    MovedParents(t, t', r);
    MoveAcyclicIff(ParentsOf(t.folders), r.id, r.parent);
    MovedForeignKeys(t, t', r);
  }

  lemma MoveItemKeepsRooted(t: Tables, t': Tables, r: Request)
    requires Rooted(t) && r.MoveItem? && Accepted(t, r) && ItemRowsMoved(t, t', r.id, r.suite, r.folder, r.now)
    ensures Rooted(t')
  {
    assert forall i :: i in t'.items ==> i in t.items;
  }

  lemma UnderSuiteParent(t: Tables, suite: Id, f: Id)
    requires f in t.folders && t.folders[f].parent.Some? && t.folders[f].parent.value in FoldersUnder(t, suite)
    ensures f in FoldersUnder(t, suite)
  {
    var p, q := ParentsOf(t.folders), t.folders[f].parent.value;
    var g :| g in t.folders && t.folders[g].suite == suite && Below(p, q, g);
    BelowParent(p, f, g);
  }

  lemma OwnFoldersUnder(t: Tables, suite: Id, f: Id)
    requires f in t.folders && t.folders[f].suite == suite
    ensures f in FoldersUnder(t, suite)
  {
    BelowSelf(ParentsOf(t.folders), f);
  }

  lemma DeleteSuiteKeepsRooted(t: Tables, t': Tables, suite: Id)
    requires Rooted(t) && SuiteDeleted(t, t', suite)
    ensures Rooted(t')
  {
    SubtableAcyclic(ParentsOf(t.folders), ParentsOf(t'.folders));
    forall f | f in t'.folders
      ensures t'.folders[f].suite in t'.suites
      ensures t'.folders[f].parent.Some? ==> t'.folders[f].parent.value in t'.folders
    {
      if t.folders[f].suite == suite {
        OwnFoldersUnder(t, suite, f);
      }
      if t.folders[f].parent.Some? && t.folders[f].parent.value in FoldersUnder(t, suite) {
        UnderSuiteParent(t, suite, f);
      }
    }
  }

  /** Every request keeps the tree, also one whose target lies in another suite, and also after such a request. */
  lemma StepKeepsRooted(t: Tables, r: Request, t': Tables)
    requires Rooted(t) && FreshId(t, r) && Step(t, r, t')
    ensures Rooted(t')
  {
    if Accepted(t, r) {
      match r
      case CreateFolder(_, _, _, _, _) => CreateFolderKeepsRooted(t, t', r);
      case DeleteFolder(x) => DeleteFolderKeepsRooted(t, t', x);
      case MoveFolder(_, _, _, _) => MoveFolderKeepsRooted(t, t', r);
      case CreateItem(_, _, _, _, _) =>
      case DeleteItem(_) =>
      case MoveItem(_, _, _, _, _) => MoveItemKeepsRooted(t, t', r);
      case UpdateItem(_, _, _, _, _) =>
      case CreateSuite(_) =>
      case DeleteSuite(x) => DeleteSuiteKeepsRooted(t, t', x);
    }
  }

  // ---- Each operation against the whole invariant ----

  lemma CreatedFolderDistinct(t: Tables, t': Tables, r: Request)
    requires FoldersDistinct(t.folders) && r.CreateFolder?
    requires FolderCreated(t, t', r.id, r.suite, r.parent, r.payload, r.now)
    ensures FoldersDistinct(t'.folders)
  {
    var group := FolderGroup(t.folders, r.suite, r.parent);
    forall f, g | f in t'.folders && g in t'.folders && f != g && FolderSiblings(t'.folders, f, g)
      ensures t'.folders[f].sort != t'.folders[g].sort
    {
      if f == r.id {
        assert g in group;
      } else if g == r.id {
        assert f in group;
      } else {
        assert FolderSiblings(t.folders, f, g);
      }
    }
  }

  /** Creating a folder keeps the invariant exactly when the parent it names lies in the suite it names. */
  lemma CreateFolderKeeps(t: Tables, t': Tables, r: Request)
    requires Valid(t) && r.CreateFolder? && Accepted(t, r) && FreshId(t, r) && Step(t, r, t')
    ensures Valid(t') <==> TargetInSuite(t, r)
  {
    CreateFolderKeepsRooted(t, t', r);
    CreatedFolderDistinct(t, t', r);
    if TargetInSuite(t, r) {
      assert FoldersInSuite(t'.folders);
    }
  }

  lemma CreatedItemDistinct(t: Tables, t': Tables, r: Request)
    requires ItemsDistinct(t.items) && r.CreateItem?
    requires ItemCreated(t, t', r.id, r.suite, r.folder, r.payload, r.now)
    ensures ItemsDistinct(t'.items)
  {
    var group := ItemGroup(t.items, r.suite, r.folder);
    forall i, j | i in t'.items && j in t'.items && i != j && ItemSiblings(t'.items, i, j)
      ensures t'.items[i].sort != t'.items[j].sort
    {
      if i == r.id {
        assert j in group;
      } else if j == r.id {
        assert i in group;
      } else {
        assert ItemSiblings(t.items, i, j);
      }
    }
  }

  /** Creating an item keeps the invariant exactly when the folder it names lies in the suite it names. */
  lemma CreateItemKeeps(t: Tables, t': Tables, r: Request)
    requires Valid(t) && r.CreateItem? && Accepted(t, r) && FreshId(t, r) && Step(t, r, t')
    ensures Valid(t') <==> TargetInSuite(t, r)
  {
    CreatedItemDistinct(t, t', r);
  }

  lemma DeleteFolderKeeps(t: Tables, t': Tables, x: Id)
    requires Valid(t) && FolderDeleted(t, t', x)
    ensures Valid(t')
  {
    DeleteFolderKeepsRooted(t, t', x);
    assert forall f, g :: f in t'.folders && g in t'.folders && FolderSiblings(t'.folders, f, g) ==> FolderSiblings(t.folders, f, g);
    assert forall i, j :: i in t'.items && j in t'.items && ItemSiblings(t'.items, i, j) ==> ItemSiblings(t.items, i, j);
  }

  lemma DeleteItemKeeps(t: Tables, t': Tables, x: Id)
    requires Valid(t) && ItemDeleted(t, t', x)
    ensures Valid(t')
  {
    assert forall i, j :: i in t'.items && j in t'.items && ItemSiblings(t'.items, i, j) ==> ItemSiblings(t.items, i, j);
  }

  lemma PlacedDiffer(t: Tables, t': Tables, r: Request, i: Id, j: Id)
    requires r.MoveItem? && ItemMoved(t, t', r.id, r.suite, r.folder, r.before, r.now)
    requires var group := ItemGroup(t'.items, r.suite, r.folder).Keys + {r.id}; i in group && j in group && i != j
    ensures t'.items[i].sort != t'.items[j].sort
  {
    var group := ItemGroup(t'.items, r.suite, r.folder).Keys;
    var order := ItemSortOf(t'.items, group + {r.id});
    assert order[i] != order[j];
  }

  lemma MovedItemsDistinct(t: Tables, t': Tables, r: Request)
    requires ItemsDistinct(t.items) && r.MoveItem? && r.id in t.items && t.items[r.id].suite == r.suite
    requires ItemMoved(t, t', r.id, r.suite, r.folder, r.before, r.now)
    ensures ItemsDistinct(t'.items)
  {
    forall i, j | i in t'.items && j in t'.items && i != j && ItemSiblings(t'.items, i, j)
      ensures t'.items[i].sort != t'.items[j].sort
    {
      if t'.items[i].suite == r.suite && t'.items[i].folder == r.folder {
        PlacedDiffer(t, t', r, i, j);
      } else {
        assert i != r.id && j != r.id;
        assert ItemSiblings(t.items, i, j);
      }
    }
  }

  lemma MovedItemRowsKeep(t: Tables, t': Tables, r: Request)
    requires Valid(t) && r.MoveItem? && Accepted(t, r) && ItemRowsMoved(t, t', r.id, r.suite, r.folder, r.now)
    ensures ItemsInSuite(t')
  {
    forall i | i in t'.items && t'.items[i].folder.Some?
      ensures t'.items[i].folder.value in t'.folders
      ensures t'.items[i].suite == t'.folders[t'.items[i].folder.value].suite
    {
      assert i in t.items;
    }
  }

  lemma MoveItemKeeps(t: Tables, t': Tables, r: Request)
    requires Valid(t) && r.MoveItem? && Accepted(t, r) && Step(t, r, t')
    ensures Valid(t')
  {
    MoveItemKeepsRooted(t, t', r);
    MovedItemRowsKeep(t, t', r);
    MovedItemsDistinct(t, t', r);
  }

  // ---- Item updates ----

  lemma UpdatedItemsDistinctIff(t: Tables, t': Tables, r: Request)
    requires ItemsDistinct(t.items) && r.UpdateItem?
    requires ItemUpdated(t, t', r.id, r.patchFolder, r.patchSort, r.patchPayload, r.now)
    ensures ItemsDistinct(t'.items) <==> PlaceFree(t, r)
  {
    var row := t'.items[r.id];
    if PlaceFree(t, r) {
      forall i, j | i in t'.items && j in t'.items && i != j && ItemSiblings(t'.items, i, j)
        ensures t'.items[i].sort != t'.items[j].sort
      {
        if i != r.id && j != r.id {
          assert ItemSiblings(t.items, i, j);
        }
      }
    }
    if ItemsDistinct(t'.items) {
      forall j | j in t.items && j != r.id && t.items[j].suite == row.suite && t.items[j].folder == row.folder
        ensures t.items[j].sort != row.sort
      {
        assert ItemSiblings(t'.items, r.id, j);
      }
    }
  }

  lemma UpdatedItemsInSuiteIff(t: Tables, t': Tables, r: Request)
    requires ItemsInSuite(t) && r.UpdateItem? && Accepted(t, r)
    requires ItemUpdated(t, t', r.id, r.patchFolder, r.patchSort, r.patchPayload, r.now)
    ensures ItemsInSuite(t') <==> TargetInSuite(t, r)
  {
    assert r.id in t'.items;
    forall i | i in t'.items && i != r.id
      ensures t'.items[i] == t.items[i]
    {
    }
  }

  /** An item update keeps the invariant exactly when its folder is in the item's suite and its place there is free. */
  lemma UpdateItemKeeps(t: Tables, t': Tables, r: Request)
    requires Valid(t) && r.UpdateItem? && Accepted(t, r) && Step(t, r, t')
    ensures Valid(t') <==> Fits(t, r)
  {
    UpdatedItemsDistinctIff(t, t', r);
    UpdatedItemsInSuiteIff(t, t', r);
  }

  /** The handler accepts an update that puts two items at one place, and one that puts an item into another suite's folder. */
  lemma UpdateBreaksEither() returns (t: Tables, r1: Request, r2: Request)
    ensures Valid(t) && r1.UpdateItem? && r2.UpdateItem?
    ensures Accepted(t, r1) && TargetInSuite(t, r1) && !PlaceFree(t, r1)
    ensures Accepted(t, r2) && !TargetInSuite(t, r2) && PlaceFree(t, r2)
  {
    var f, g := Folder("s1", None, 0, 0, ""), Folder("s2", None, 0, 0, "");
    var i, j := Item("s1", None, 0, 0, 0, ""), Item("s1", Some("f"), 0, 0, 0, "");
    t := Tables({"s1", "s2"}, map["f" := f, "g" := g], map["i" := i, "j" := j]);
    r1 := UpdateItem("i", Some(Some("f")), None, None, 1);
    r2 := UpdateItem("i", Some(Some("g")), None, None, 1);
    var p := ParentsOf(t.folders);
    assert Ancestor(p, "f", 1) == None && Ancestor(p, "g", 1) == None;
    assert t.items["j"].folder == Some("f") && t.items["j"].sort == 0;
  }

  // ---- Suites ----

  lemma DeleteSuiteKeeps(t: Tables, t': Tables, suite: Id)
    requires Valid(t) && SuiteDeleted(t, t', suite)
    ensures Valid(t')
  {
    DeleteSuiteKeepsRooted(t, t', suite);
    assert forall f, g :: f in t'.folders && g in t'.folders && FolderSiblings(t'.folders, f, g) ==> FolderSiblings(t.folders, f, g);
    assert forall i, j :: i in t'.items && j in t'.items && ItemSiblings(t'.items, i, j) ==> ItemSiblings(t.items, i, j);
  }

  predicate ParentOfSuite(t: Tables, f: Id, suite: Id)
    requires f in t.folders
  {
    var q := t.folders[f].parent;
    q.Some? && q.value in t.folders && t.folders[q.value].suite == suite
  }

  predicate FolderOfSuite(t: Tables, i: Id, suite: Id)
    requires i in t.items
  {
    var f := t.items[i].folder;
    f.Some? && f.value in t.folders && t.folders[f.value].suite == suite
  }

  /** Nothing of another suite hangs in a folder of this one. */
  ghost predicate Alone(t: Tables, suite: Id) {
    && (forall f :: f in t.folders && ParentOfSuite(t, f, suite) ==> t.folders[f].suite == suite)
    && (forall i :: i in t.items && FolderOfSuite(t, i, suite) ==> t.items[i].suite == suite)
  }

  lemma UnderAlone(t: Tables, suite: Id)
    requires Alone(t, suite)
    ensures forall f :: f in FoldersUnder(t, suite) <==> f in t.folders && t.folders[f].suite == suite
  {
    var p := ParentsOf(t.folders);
    var own := set f | f in t.folders && t.folders[f].suite == suite;
    forall f
      ensures f in FoldersUnder(t, suite) <==> f in own
    {
      if f in own {
        OwnFoldersUnder(t, suite, f);
      }
      if f in FoldersUnder(t, suite) {
        var g :| g in t.folders && t.folders[g].suite == suite && Below(p, f, g);
        var k: nat :| Ancestor(p, f, k) == Some(g);
        BelowStaysIn(p, own, f, g, k);
      }
    }
  }

  ghost predicate OnlyThatSuite(t: Tables, t': Tables, suite: Id) {
    && t'.folders == (map f | f in t.folders && t.folders[f].suite != suite :: t.folders[f])
    && t'.items == (map i | i in t.items && t.items[i].suite != suite :: t.items[i])
  }

  lemma OnlyThatSuiteIfAlone(t: Tables, t': Tables, suite: Id)
    requires ForeignKeys(t) && SuiteDeleted(t, t', suite) && Alone(t, suite)
    ensures OnlyThatSuite(t, t', suite)
  {
    UnderAlone(t, suite);
    assert t'.folders == (map f | f in t.folders && t.folders[f].suite != suite :: t.folders[f]);
    assert t'.items == (map i | i in t.items && t.items[i].suite != suite :: t.items[i]);
  }

  lemma AloneIfOnlyThatSuite(t: Tables, t': Tables, suite: Id)
    requires SuiteDeleted(t, t', suite) && OnlyThatSuite(t, t', suite)
    ensures Alone(t, suite)
  {
    forall f | f in t.folders && ParentOfSuite(t, f, suite)
      ensures t.folders[f].suite == suite
    {
      OwnFoldersUnder(t, suite, t.folders[f].parent.value);
      UnderSuiteParent(t, suite, f);
      assert f !in t'.folders;
    }
    forall i | i in t.items && FolderOfSuite(t, i, suite)
      ensures t.items[i].suite == suite
    {
      OwnFoldersUnder(t, suite, t.items[i].folder.value);
      assert i !in t'.items;
    }
  }

  /** Deleting a suite removes its own rows and no others if and only if nothing of another suite hangs in its folders. */
  lemma DeletesOnlyItsOwnIff(t: Tables, t': Tables, suite: Id)
    requires ForeignKeys(t) && SuiteDeleted(t, t', suite)
    ensures OnlyThatSuite(t, t', suite) <==> Alone(t, suite)
  {
    if Alone(t, suite) {
      OnlyThatSuiteIfAlone(t, t', suite);
    }
    if OnlyThatSuite(t, t', suite) {
      AloneIfOnlyThatSuite(t, t', suite);
    }
  }

  /** After a move like the one of `HandlerAcceptsForeignParent`, deleting "s2" takes a folder of "s1" along. */
  lemma DeletionReachesAcross() returns (t: Tables)
    ensures Rooted(t) && "s2" in t.suites && "a" in t.folders && t.folders["a"].suite == "s1"
    ensures "a" in FoldersUnder(t, "s2")
  {
    var a, b := Folder("s1", Some("b"), 0, 0, ""), Folder("s2", None, 0, 0, "");
    t := Tables({"s1", "s2"}, map["a" := a, "b" := b], map[]);
    var p := ParentsOf(t.folders);
    assert Ancestor(p, "b", 1) == None && Ancestor(p, "a", 2) == None;
    OwnFoldersUnder(t, "s2", "b");
    UnderSuiteParent(t, "s2", "a");
  }

  /** On valid tables every suite is alone. */
  lemma ValidIsAlone(t: Tables, suite: Id)
    requires Valid(t)
    ensures Alone(t, suite)
  {
  }

  // ---- Folder moves ----

  /** A folder is re-homed exactly when it is the moved one or its parent is re-homed. */
  lemma RehomedMembers(t: Tables, x: Id, suite: Id, f: Id)
    requires ForeignKeys(t) && x in t.folders && f in t.folders && t.folders[x].suite != suite
    ensures f in Rehomed(t, x, suite) <==>
            f == x || (t.folders[f].parent.Some? && t.folders[f].parent.value in Rehomed(t, x, suite))
  {
    var p := ParentsOf(t.folders);
    assert Ancestor(p, x, 0) == Some(x);
    if t.folders[f].parent.Some? {
      BelowParent(p, f, x);
    } else if Below(p, f, x) {
      var k: nat :| Ancestor(p, f, k) == Some(x);
      assert k == 0;
    }
  }

  lemma MovedFolderSuite(t: Tables, t': Tables, r: Request, f: Id)
    requires Valid(t) && r.MoveFolder? && Accepted(t, r) && FolderRowsMoved(t, t', r.id, r.suite, r.parent)
    requires f in t'.folders && t'.folders[f].parent.Some?
    ensures t'.folders[f].parent.value in t'.folders
    ensures f != r.id ==> t'.folders[f].suite == t'.folders[t'.folders[f].parent.value].suite
    ensures f == r.id ==> (t'.folders[f].suite == t'.folders[r.parent.value].suite <==> TargetInSuite(t, r))
  {
    var q := t'.folders[f].parent.value;
    assert t.folders[f].createdAt == t'.folders[f].createdAt;
    assert q in t.folders;
    if t.folders[r.id].suite != r.suite {
      RehomedMembers(t, r.id, r.suite, f);
    }
  }

  lemma MovedItemsSuite(t: Tables, t': Tables, r: Request)
    requires Valid(t) && r.MoveFolder? && FolderRowsMoved(t, t', r.id, r.suite, r.parent)
    ensures forall i :: i in t'.items && t'.items[i].folder.Some? ==>
              && t'.items[i].folder.value in t'.folders
              && t'.items[i].suite == t'.folders[t'.items[i].folder.value].suite
  {
    forall i | i in t'.items && t'.items[i].folder.Some?
      ensures t'.items[i].folder.value in t'.folders
      ensures t'.items[i].suite == t'.folders[t'.items[i].folder.value].suite
    {
      assert t.items[i].folder == t'.items[i].folder;
    }
  }

  lemma MovedRoots(t: Tables, t': Tables, r: Request, f: Id)
    requires Valid(t) && r.MoveFolder? && FolderRowsMoved(t, t', r.id, r.suite, r.parent)
    requires f in t.folders && f != r.id && t.folders[f].parent.None?
    ensures t'.folders[f].suite == t.folders[f].suite
  {
    if t.folders[r.id].suite != r.suite {
      RehomedMembers(t, r.id, r.suite, f);
    }
  }

  lemma MovedFolderInGroup(t: Tables, t': Tables, r: Request)
    requires Valid(t) && r.MoveFolder? && FolderRowsMoved(t, t', r.id, r.suite, r.parent)
    ensures r.id in FolderGroup(t'.folders, r.suite, r.parent)
  {
    if t.folders[r.id].suite != r.suite {
      RehomedMembers(t, r.id, r.suite, r.id);
    }
    assert r.id in t'.folders;
  }

  /** Outside the renumbered group siblings were siblings before the move. */
  lemma WereSiblings(t: Tables, t': Tables, r: Request, f: Id, g: Id)
    requires Valid(t) && r.MoveFolder? && FolderRowsMoved(t, t', r.id, r.suite, r.parent)
    requires f in t.folders && g in t.folders && f != r.id && g != r.id && FolderSiblings(t'.folders, f, g)
    ensures FolderSiblings(t.folders, f, g)
  {
    var q := t.folders[f].parent;
    assert q == t'.folders[f].parent == t'.folders[g].parent == t.folders[g].parent;
    if q.None? {
      MovedRoots(t, t', r, f);
      MovedRoots(t, t', r, g);
    }
  }

  lemma MovedFoldersDistinct(t: Tables, t': Tables, r: Request)
    requires Valid(t) && r.MoveFolder? && FolderMoved(t, t', r.id, r.suite, r.parent, r.before)
    ensures FoldersDistinct(t'.folders)
  {
    var group := FolderGroup(t'.folders, r.suite, r.parent).Keys;
    var order := SortOf(t'.folders, group);
    MovedFolderInGroup(t, t', r);
    forall f, g | f in t'.folders && g in t'.folders && f != g && FolderSiblings(t'.folders, f, g)
      ensures t'.folders[f].sort != t'.folders[g].sort
    {
      if f in group {
        assert g in group;
        assert order[f] != order[g];
      } else {
        assert g !in group;
        WereSiblings(t, t', r, f, g);
      }
    }
  }

  lemma MovedItemsDistinctToo(t: Tables, t': Tables, r: Request)
    requires Valid(t) && r.MoveFolder? && FolderRowsMoved(t, t', r.id, r.suite, r.parent)
    ensures ItemsDistinct(t'.items)
  {
    forall i, j | i in t'.items && j in t'.items && i != j && ItemSiblings(t'.items, i, j)
      ensures t'.items[i].sort != t'.items[j].sort
    {
      assert t.items[i].folder == t.items[j].folder;
      assert ItemSiblings(t.items, i, j);
    }
  }

  lemma MovedFoldersInSuiteIff(t: Tables, t': Tables, r: Request)
    requires Valid(t) && r.MoveFolder? && Accepted(t, r) && FolderRowsMoved(t, t', r.id, r.suite, r.parent)
    ensures FoldersInSuite(t'.folders) <==> TargetInSuite(t, r)
  {
    MovedFolderInGroup(t, t', r);
    if r.parent.Some? {
      MovedFolderSuite(t, t', r, r.id);
    }
    if TargetInSuite(t, r) {
      forall f | f in t'.folders && t'.folders[f].parent.Some?
        ensures t'.folders[f].parent.value in t'.folders
        ensures t'.folders[f].suite == t'.folders[t'.folders[f].parent.value].suite
      {
        MovedFolderSuite(t, t', r, f);
      }
    }
  }

  /** A folder move the handler accepts keeps the invariant exactly when the target parent lies in the target suite. */
  lemma MoveFolderKeeps(t: Tables, t': Tables, r: Request)
    requires Valid(t) && r.MoveFolder? && Accepted(t, r) && Step(t, r, t')
    ensures Valid(t') <==> TargetInSuite(t, r)
  {
    assert FolderMoved(t, t', r.id, r.suite, r.parent, r.before);
    MoveFolderKeepsRooted(t, t', r);
    MovedFoldersDistinct(t, t', r);
    MovedItemsDistinctToo(t, t', r);
    MovedItemsSuite(t, t', r);
    MovedFoldersInSuiteIff(t, t', r);
  }

  /** What a move does to the siblings already there: smaller `sort_order` first, and of equal ones the older row. */
  lemma MoveFolderKeepsOldOrder(t: Tables, t': Tables, x: Id, suite: Id, parent: Option<Id>, before: Option<Id>, a: Id, b: Id)
    requires FolderMoved(t, t', x, suite, parent, before)
    requires a in t'.folders && t'.folders[a].suite == suite && t'.folders[a].parent == parent && a != x
    requires b in t'.folders && t'.folders[b].suite == suite && t'.folders[b].parent == parent && b != x
    requires t.folders[a].sort < t.folders[b].sort ||
             (t.folders[a].sort == t.folders[b].sort && t.folders[a].createdAt < t.folders[b].createdAt)
    ensures t'.folders[a].sort < t'.folders[b].sort
  {
    var group := FolderGroup(t'.folders, suite, parent).Keys;
    var order, keys := SortOf(t'.folders, group), KeysOf(t.folders, group);
    assert a in order && b in order && order[a] != order[b];
    assert order[b] < order[a] ==> NotAfter(keys[b], keys[a]);
  }

  lemma MoveItemKeepsOldOrder(t: Tables, t': Tables, x: Id, suite: Id, folder: Option<Id>, before: Option<Id>, now: int, a: Id, b: Id)
    requires ItemMoved(t, t', x, suite, folder, before, now)
    requires a in t'.items && t'.items[a].suite == suite && t'.items[a].folder == folder && a != x
    requires b in t'.items && t'.items[b].suite == suite && t'.items[b].folder == folder && b != x
    requires t.items[a].sort < t.items[b].sort ||
             (t.items[a].sort == t.items[b].sort && t.items[a].createdAt < t.items[b].createdAt)
    ensures t'.items[a].sort < t'.items[b].sort
  {
    var group := ItemGroup(t'.items, suite, folder).Keys;
    var order, keys := ItemSortOf(t'.items, group + {x}), ItemKeysOf(t.items, group);
    assert a in order && b in order && order[a] != order[b];
    assert order[b] < order[a] ==> NotAfter(keys[b], keys[a]);
  }

  /** `moveFolder` without the handler in front of it: a target inside the moved branch closes a cycle. */
  lemma UnguardedMoveClosesCycle(t: Tables, t': Tables, r: Request)
    requires Valid(t) && r.MoveFolder? && FolderRowsMoved(t, t', r.id, r.suite, r.parent)
    ensures Acyclic(ParentsOf(t'.folders)) <==> r.parent.None? || !Below(ParentsOf(t.folders), r.parent.value, r.id)
  {
    MovedParents(t, t', r);
    MoveAcyclicIff(ParentsOf(t.folders), r.id, r.parent);
  }

  // ---- Runs ----

  lemma FolderStepKeepsIff(t: Tables, r: Request, t': Tables)
    requires Valid(t) && FreshId(t, r) && Accepted(t, r) && Step(t, r, t')
    requires r.CreateFolder? || r.DeleteFolder? || r.MoveFolder?
    ensures Valid(t') <==> TargetInSuite(t, r)
  {
    match r
    case CreateFolder(_, _, _, _, _) => CreateFolderKeeps(t, t', r);
    case DeleteFolder(x) => DeleteFolderKeeps(t, t', x);
    case MoveFolder(_, _, _, _) => MoveFolderKeeps(t, t', r);
  }

  lemma ItemStepKeepsIff(t: Tables, r: Request, t': Tables)
    requires Valid(t) && FreshId(t, r) && Accepted(t, r) && Step(t, r, t')
    requires r.CreateItem? || r.DeleteItem? || r.MoveItem?
    ensures Valid(t') <==> TargetInSuite(t, r)
  {
    match r
    case CreateItem(_, _, _, _, _) => CreateItemKeeps(t, t', r);
    case DeleteItem(x) => DeleteItemKeeps(t, t', x);
    case MoveItem(_, _, _, _, _) => MoveItemKeeps(t, t', r);
  }

  lemma SuiteStepKeeps(t: Tables, r: Request, t': Tables)
    requires Valid(t) && FreshId(t, r) && Accepted(t, r) && Step(t, r, t')
    requires r.CreateSuite? || r.DeleteSuite?
    ensures Valid(t')
  {
    if r.DeleteSuite? {
      DeleteSuiteKeeps(t, t', r.id);
    }
  }

  /** One request, exactly: it keeps the invariant if and only if it is refused or what it names is of its suite and free. */
  lemma StepKeepsIff(t: Tables, r: Request, t': Tables)
    requires Valid(t) && FreshId(t, r) && Step(t, r, t')
    ensures Valid(t') <==> !Accepted(t, r) || Fits(t, r)
  {
    if Accepted(t, r) {
      if r.CreateFolder? || r.DeleteFolder? || r.MoveFolder? {
        FolderStepKeepsIff(t, r, t');
      } else if r.CreateSuite? || r.DeleteSuite? {
        SuiteStepKeeps(t, r, t');
      } else if r.UpdateItem? {
        UpdateItemKeeps(t, t', r);
      } else {
        ItemStepKeepsIff(t, r, t');
      }
    }
  }

  /** The gap is real: the handler accepts moving "a" under "b" of another suite. */
  lemma HandlerAcceptsForeignParent() returns (t: Tables, r: Request)
    ensures Valid(t) && Accepted(t, r) && !TargetInSuite(t, r)
  {
    var a, b := Folder("s1", None, 0, 0, ""), Folder("s2", None, 0, 0, "");
    t := Tables({"s1", "s2"}, map["a" := a, "b" := b], map[]);
    r := MoveFolder("a", "s1", Some("b"), None);
    var p := ParentsOf(t.folders);
    assert Ancestor(p, "a", 1) == None && Ancestor(p, "b", 1) == None;
    forall k: nat
      ensures Ancestor(p, "b", k) != Some("a")
    {
    }
  }

  /** `states[i + 1]` is the result of `requests[i]` on `states[i]`. */
  ghost predicate Run(states: seq<Tables>, requests: seq<Request>) {
    && |states| == |requests| + 1
    && forall i :: 0 <= i < |requests| ==> FreshId(states[i], requests[i]) && Step(states[i], requests[i], states[i + 1])
  }

  /** A run that never used the handlers' gaps. */
  ghost predicate RunFits(states: seq<Tables>, requests: seq<Request>) {
    Run(states, requests) && forall i :: 0 <= i < |requests| ==> Fits(states[i], requests[i])
  }

  /** Over every run of requests, whatever their targets, no row is left dangling and no folder under itself. */
  lemma {:induction false} RunKeepsRooted(states: seq<Tables>, requests: seq<Request>)
    requires Run(states, requests) && Rooted(states[0])
    ensures forall i :: 0 <= i < |states| ==> Rooted(states[i])
  {
    var n := 0;
    while n < |requests|
      invariant n <= |requests|
      invariant forall i :: 0 <= i <= n ==> Rooted(states[i])
    {
      StepKeepsRooted(states[n], requests[n], states[n + 1]);
      n := n + 1;
    }
  }

  /** Over every run of requests that fit the tree also stays in one suite per branch, with distinct sibling orders. */
  lemma {:induction false} RunKeepsValid(states: seq<Tables>, requests: seq<Request>)
    requires RunFits(states, requests) && Valid(states[0])
    ensures forall i :: 0 <= i < |states| ==> Valid(states[i])
  {
    var n := 0;
    while n < |requests|
      invariant n <= |requests|
      invariant forall i :: 0 <= i <= n ==> Valid(states[i])
    {
      StepKeepsIff(states[n], requests[n], states[n + 1]);
      n := n + 1;
    }
  }
}
