/** Importing the Desktop hierarchy: Workspaces, their Projects and Tabs are joined by their ids. */
module DesktopJoin {
  import opened Bytes
  import opened Selection
  import opened StableSort
  import Text

  datatype WorkspaceRecord = WorkspaceRecord(id: string, name: string, order: int)
  datatype ProjectRecord = ProjectRecord(id: string, name: string, path: string, order: int, workspace: string)
  datatype Snapshot = Snapshot(project: string, titles: seq<Option<string>>)

  datatype Tab = Tab(name: Option<string>)
  datatype Project = Project(id: string, name: string, path: string, tabs: seq<Tab>)
  datatype Workspace = Workspace(id: string, name: string, projects: seq<Project>)

  const I32_MAX: int := 0x7fff_ffff
  const DEFAULT := WorkspaceRecord("default", "Default", 0)

  function Order(p: ProjectRecord): int { p.order }
  function WorkspaceId(w: WorkspaceRecord): string { w.id }
  function CatalogOrder(w: WorkspaceRecord): int { w.order }

  function Recovered(id: string): WorkspaceRecord { WorkspaceRecord(id, "Recovered " + id, I32_MAX) }

  /** A title that is blank after trimming is no title. */
  function Title(title: Option<string>): Tab {
    if title.Some? && Text.Trim(title.value) != [] then Tab(Some(Text.Trim(title.value))) else Tab(None)
  }

  function Tabs(snapshots: map<string, seq<Option<string>>>, id: string): (tabs: seq<Tab>)
    ensures tabs != []
  {
    if id !in snapshots || snapshots[id] == [] then [Tab(None)]
    else seq(|snapshots[id]|, i requires 0 <= i < |snapshots[id]| => Title(snapshots[id][i]))
  }

  function Import(snapshots: map<string, seq<Option<string>>>, p: ProjectRecord): Project {
    Project(p.id, Text.Trim(p.name), p.path, Tabs(snapshots, p.id))
  }

  /** How one Project record is imported, given the snapshots. */
  function Importer(snapshots: map<string, seq<Option<string>>>): ProjectRecord -> Project {
    (p: ProjectRecord) => Import(snapshots, p)
  }

  function In(id: string): ProjectRecord -> bool { (p: ProjectRecord) => p.workspace == id }

  function Map<T, U>(f: T -> U, s: seq<T>): seq<U> {
    if s == [] then [] else [f(s[0])] + Map(f, s[1..])
  }

  /** The Workspaces of a catalog that have Projects, each with its own, in order. */
  function Join(ws: seq<WorkspaceRecord>, ps: seq<ProjectRecord>, imported: ProjectRecord -> Project): seq<Workspace> {
    if ws == [] then [] else JoinOne(ws[0], ps, imported) + Join(ws[1..], ps, imported)
  }

  /** One Workspace with its Projects; none if it has none. */
  function JoinOne(w: WorkspaceRecord, ps: seq<ProjectRecord>, imported: ProjectRecord -> Project): seq<Workspace> {
    var own := Filter(In(w.id), ps);
    if own == [] then [] else [Workspace(w.id, Text.Trim(w.name), Map(imported, own))]
  }

  /** The catalog the import works with: sorted, or a default one when there is none. */
  function Catalog(workspaces: seq<WorkspaceRecord>, projects: seq<ProjectRecord>): seq<WorkspaceRecord> {
    if workspaces == [] && projects != [] then [DEFAULT] else Sort(CatalogOrder, workspaces)
  }

  function Ids(ws: seq<WorkspaceRecord>): set<string> { set i | 0 <= i < |ws| :: ws[i].id }

  function MissingIds(ws: seq<WorkspaceRecord>, ps: seq<ProjectRecord>): set<string> {
    set i | 0 <= i < |ps| && ps[i].workspace !in Ids(ws) :: ps[i].workspace
  }

  function RecoveredAll(ids: seq<string>): (ws: seq<WorkspaceRecord>)
    ensures |ws| == |ids| && forall i :: 0 <= i < |ids| ==> ws[i] == Recovered(ids[i])
  {
    seq(|ids|, i requires 0 <= i < |ids| => Recovered(ids[i]))
  }

  ghost predicate Distinct<T>(s: seq<T>) { forall i, j :: 0 <= i < j < |s| ==> s[i] != s[j] }

  /** `missing` lists the Workspaces to recover, each once, in any order. */
  ghost predicate Completes(missing: seq<string>, ws: seq<WorkspaceRecord>, ps: seq<ProjectRecord>) {
    Distinct(missing) && (set i | 0 <= i < |missing| :: missing[i]) == MissingIds(ws, ps)
  }

  function SnapshotMap(snapshots: seq<Snapshot>): map<string, seq<Option<string>>> {
    if snapshots == [] then map[]
    else
      var last := snapshots[|snapshots| - 1];
      SnapshotMap(snapshots[..|snapshots| - 1])[last.project := last.titles]
  }

  // ----- The import, loop by loop

  method Children(
    snapshots: map<string, seq<Option<string>>>, id: string, ps: seq<ProjectRecord>
  ) returns (children: seq<Project>)
    ensures children == Map(Importer(snapshots), Filter(In(id), ps))
  {
    children := [];
    var rest := ps;
    ghost var imported := Importer(snapshots);
    while rest != []
      invariant Map(imported, Filter(In(id), ps)) == children + Map(imported, Filter(In(id), rest))
      decreases |rest|
    {
      MapFilterFirst(imported, In(id), rest, children);
      if rest[0].workspace == id {
        children := children + [Import(snapshots, rest[0])];
      }
      rest := rest[1..];
    }
  }

  lemma MapFilterFirst<T, U>(f: T -> U, p: T -> bool, s: seq<T>, before: seq<U>)
    requires s != []
    ensures before + Map(f, Filter(p, s)) ==
            (if p(s[0]) then before + [f(s[0])] else before) + Map(f, Filter(p, s[1..]))
  {
    var rest := Filter(p, s[1..]);
    if p(s[0]) {
      MapCons(f, s[0], rest);
      Regroup(before, [f(s[0])], Map(f, rest));
    } else {
      assert [] + rest == rest;
    }
  }

  lemma MapCons<T, U>(f: T -> U, x: T, s: seq<T>)
    ensures Map(f, [x] + s) == [f(x)] + Map(f, s)
  {
    assert ([x] + s)[1..] == s;
  }

  method JoinWorkspace(w: WorkspaceRecord, ps: seq<ProjectRecord>, snapshots: map<string, seq<Option<string>>>)
    returns (joined: seq<Workspace>)
    ensures joined == JoinOne(w, ps, Importer(snapshots))
  {
    var children := Children(snapshots, w.id, ps);
    joined := if children != [] then [Workspace(w.id, Text.Trim(w.name), children)] else [];
  }

  lemma JoinMore(joined: seq<Workspace>, one: seq<Workspace>, rest: seq<Workspace>)
    ensures joined + (one + rest) == (joined + one) + rest
  {
  }

  method JoinLoop(ws: seq<WorkspaceRecord>, ps: seq<ProjectRecord>, snapshots: map<string, seq<Option<string>>>)
    returns (joined: seq<Workspace>)
    ensures joined == Join(ws, ps, Importer(snapshots))
  {
    joined := [];
    var rest := ws;
    while rest != []
      invariant Join(ws, ps, Importer(snapshots)) == joined + Join(rest, ps, Importer(snapshots))
      decreases |rest|
    {
      var one := JoinWorkspace(rest[0], ps, snapshots);
      JoinMore(joined, one, Join(rest[1..], ps, Importer(snapshots)));
      joined, rest := joined + one, rest[1..];
    }
  }

  /** Missing Workspaces come out of a hash set, so in no particular order. */
  method Recover(ids: set<string>) returns (order: seq<string>)
    ensures Distinct(order) && (set i | 0 <= i < |order| :: order[i]) == ids
  {
    order := [];
    var todo := ids;
    while todo != {}
      invariant Distinct(order) && todo <= ids
      invariant forall id :: id in ids <==> id in todo || id in order
      invariant forall id :: id in todo ==> id !in order
      decreases todo
    {
      var id :| id in todo;
      order, todo := order + [id], todo - {id};
    }
  }

  // ----- Every Project is conserved

  /** Where an imported Project ended up. */
  datatype Placed = Placed(workspace: string, project: Project)

  function PlacedIn(id: string, ps: seq<Project>): seq<Placed> {
    if ps == [] then [] else [Placed(id, ps[0])] + PlacedIn(id, ps[1..])
  }

  function AllPlaced(joined: seq<Workspace>): seq<Placed> {
    if joined == [] then [] else PlacedIn(joined[0].id, joined[0].projects) + AllPlaced(joined[1..])
  }

  /** Where each input Project belongs. */
  function Belongs(imported: ProjectRecord -> Project, ps: seq<ProjectRecord>): seq<Placed> {
    if ps == [] then [] else [Placed(ps[0].workspace, imported(ps[0]))] + Belongs(imported, ps[1..])
  }

  function Count<T(==)>(x: T, s: seq<T>): nat {
    if s == [] then 0 else (if s[0] == x then 1 else 0) + Count(x, s[1..])
  }

  lemma CountCons<T>(x: T, first: T, s: seq<T>)
    ensures Count(x, [first] + s) == (if first == x then 1 else 0) + Count(x, s)
  {
    assert ([first] + s)[1..] == s;
  }

  lemma {:induction false} CountConcat<T>(x: T, a: seq<T>, b: seq<T>)
    ensures Count(x, a + b) == Count(x, a) + Count(x, b)
  {
    if a == [] {
      assert a + b == b;
    } else {
      CountConcat(x, a[1..], b);
      assert a + b == [a[0]] + (a[1..] + b);
      CountCons(x, a[0], a[1..] + b);
    }
  }

  lemma {:induction false} CountIsMultiset<T>(x: T, s: seq<T>)
    ensures Count(x, s) == multiset(s)[x]
  {
    if s != [] {
      CountIsMultiset(x, s[1..]);
      assert s == [s[0]] + s[1..];
    }
  }

  /** How often a Workspace id occurs in a catalog. */
  function Occurs(id: string, ws: seq<WorkspaceRecord>): nat {
    if ws == [] then 0 else (if ws[0].id == id then 1 else 0) + Occurs(id, ws[1..])
  }

  /** The Projects of one Workspace, as placed there. */
  function Own(id: string, ps: seq<ProjectRecord>, imported: ProjectRecord -> Project): seq<Placed> {
    PlacedIn(id, Map(imported, Filter(In(id), ps)))
  }

  lemma OwnCons(id: string, ps: seq<ProjectRecord>, imported: ProjectRecord -> Project)
    requires ps != []
    ensures Own(id, ps, imported) ==
            (if ps[0].workspace == id then [Placed(id, imported(ps[0]))] else []) + Own(id, ps[1..], imported)
  {
    var rest := Filter(In(id), ps[1..]);
    if ps[0].workspace == id {
      MapCons(imported, ps[0], rest);
      assert ([imported(ps[0])] + Map(imported, rest))[1..] == Map(imported, rest);
    } else {
      assert [] + rest == rest;
      assert [] + Own(id, ps[1..], imported) == Own(id, ps[1..], imported);
    }
  }

  lemma {:induction false} OwnCounts(id: string, ps: seq<ProjectRecord>, imported: ProjectRecord -> Project, x: Placed)
    ensures Count(x, Own(id, ps, imported)) == if x.workspace == id then Count(x, Belongs(imported, ps)) else 0
  {
    if ps != [] {
      OwnCounts(id, ps[1..], imported, x);
      OwnCons(id, ps, imported);
      var first := Placed(ps[0].workspace, imported(ps[0]));
      CountCons(x, first, Belongs(imported, ps[1..]));
      CountConcat(x, if ps[0].workspace == id then [Placed(id, imported(ps[0]))] else [], Own(id, ps[1..], imported));
    }
  }

  lemma PlacedOne(w: WorkspaceRecord, ps: seq<ProjectRecord>, imported: ProjectRecord -> Project, rest: seq<Workspace>)
    ensures AllPlaced(JoinOne(w, ps, imported) + rest) == Own(w.id, ps, imported) + AllPlaced(rest)
  {
    var one := JoinOne(w, ps, imported);
    if one == [] {
      assert one + rest == rest && [] + AllPlaced(rest) == AllPlaced(rest);
    } else {
      assert (one + rest)[0] == one[0] && (one + rest)[1..] == rest;
    }
  }

  lemma OneMore(k: nat, n: nat)
    ensures (1 + k) * n == n + k * n
  {
  }

  /** Each Project appears once for every occurrence of its Workspace id in the catalog. */
  lemma {:induction false} JoinCounts(
    ws: seq<WorkspaceRecord>, ps: seq<ProjectRecord>, imported: ProjectRecord -> Project, x: Placed
  )
    ensures Count(x, AllPlaced(Join(ws, ps, imported))) == Occurs(x.workspace, ws) * Count(x, Belongs(imported, ps))
  {
    if ws != [] {
      var w, rest := ws[0], ws[1..];
      JoinCounts(rest, ps, imported, x);
      PlacedOne(w, ps, imported, Join(rest, ps, imported));
      CountConcat(x, Own(w.id, ps, imported), AllPlaced(Join(rest, ps, imported)));
      OwnCounts(w.id, ps, imported, x);
      OneMore(Occurs(x.workspace, rest), Count(x, Belongs(imported, ps)));
    }
  }

  // ----- How often an id occurs in the completed catalog

  lemma {:induction false} OccursConcat(id: string, a: seq<WorkspaceRecord>, b: seq<WorkspaceRecord>)
    ensures Occurs(id, a + b) == Occurs(id, a) + Occurs(id, b)
  {
    if a == [] {
      assert a + b == b;
    } else {
      OccursConcat(id, a[1..], b);
      assert (a + b)[1..] == a[1..] + b;
    }
  }

  lemma {:induction false} OccursInserted(id: string, w: WorkspaceRecord, ws: seq<WorkspaceRecord>)
    ensures Occurs(id, Insert(CatalogOrder, w, ws)) == (if w.id == id then 1 else 0) + Occurs(id, ws)
  {
    if ws == [] || w.order <= ws[0].order {
      assert ([w] + ws)[1..] == ws;
    } else {
      OccursInserted(id, w, ws[1..]);
      var rest := Insert(CatalogOrder, w, ws[1..]);
      assert ([ws[0]] + rest)[1..] == rest;
    }
  }

  lemma {:induction false} OccursSorted(id: string, ws: seq<WorkspaceRecord>)
    ensures Occurs(id, Sort(CatalogOrder, ws)) == Occurs(id, ws)
  {
    if ws != [] {
      OccursSorted(id, ws[1..]);
      OccursInserted(id, ws[0], Sort(CatalogOrder, ws[1..]));
    }
  }

  lemma {:induction false} OccursIffKnown(id: string, ws: seq<WorkspaceRecord>)
    ensures Occurs(id, ws) > 0 <==> exists i :: 0 <= i < |ws| && ws[i].id == id
  {
    if ws != [] {
      OccursIffKnown(id, ws[1..]);
      if i :| 0 <= i < |ws| && ws[i].id == id && i > 0 {
        assert ws[1..][i - 1].id == id;
      }
    }
  }

  lemma {:induction false} RecoveredOnce(id: string, ids: seq<string>)
    requires Distinct(ids)
    ensures Occurs(id, RecoveredAll(ids)) == if id in ids then 1 else 0
  {
    if ids != [] {
      RecoveredOnce(id, ids[1..]);
      assert RecoveredAll(ids)[1..] == RecoveredAll(ids[1..]);
    }
  }

  /** An id the Projects use occurs in the completed catalog as often as in the catalog, but at least once. */
  lemma CompletedOccurs(id: string, missing: seq<string>, ws: seq<WorkspaceRecord>, ps: seq<ProjectRecord>)
    requires Completes(missing, ws, ps)
    requires exists i :: 0 <= i < |ps| && ps[i].workspace == id
    ensures Occurs(id, ws + RecoveredAll(missing)) == if Occurs(id, ws) == 0 then 1 else Occurs(id, ws)
  {
    OccursConcat(id, ws, RecoveredAll(missing));
    RecoveredOnce(id, missing);
    OccursIffKnown(id, ws);
    assert id in missing <==> id in (set i | 0 <= i < |missing| :: missing[i]);
    var at :| 0 <= at < |ps| && ps[at].workspace == id;
    assert id in MissingIds(ws, ps) <==> ps[at].workspace !in Ids(ws);
    assert id in Ids(ws) <==> exists i :: 0 <= i < |ws| && ws[i].id == id;
  }

  // ----- Sorting moves Projects and adds none

  lemma {:induction false} BelongsInserted(
    imported: ProjectRecord -> Project, p: ProjectRecord, ps: seq<ProjectRecord>, x: Placed
  )
    ensures Count(x, Belongs(imported, Insert(Order, p, ps))) ==
            (if Placed(p.workspace, imported(p)) == x then 1 else 0) + Count(x, Belongs(imported, ps))
  {
    if ps == [] || p.order <= ps[0].order {
      BelongsCons(imported, p, ps, x);
    } else {
      BelongsInserted(imported, p, ps[1..], x);
      BelongsCons(imported, ps[0], Insert(Order, p, ps[1..]), x);
      BelongsCons(imported, ps[0], ps[1..], x);
      assert ps == [ps[0]] + ps[1..];
    }
  }

  lemma BelongsCons(imported: ProjectRecord -> Project, p: ProjectRecord, ps: seq<ProjectRecord>, x: Placed)
    ensures Count(x, Belongs(imported, [p] + ps)) ==
            (if Placed(p.workspace, imported(p)) == x then 1 else 0) + Count(x, Belongs(imported, ps))
  {
    assert ([p] + ps)[1..] == ps;
    CountCons(x, Placed(p.workspace, imported(p)), Belongs(imported, ps));
  }

  lemma {:induction false} BelongsSorted(imported: ProjectRecord -> Project, ps: seq<ProjectRecord>, x: Placed)
    ensures Count(x, Belongs(imported, Sort(Order, ps))) == Count(x, Belongs(imported, ps))
  {
    if ps != [] {
      BelongsSorted(imported, ps[1..], x);
      BelongsInserted(imported, ps[0], Sort(Order, ps[1..]), x);
      BelongsCons(imported, ps[0], ps[1..], x);
      assert ps == [ps[0]] + ps[1..];
    }
  }

  lemma {:induction false} BelongsOnlyTo(imported: ProjectRecord -> Project, ps: seq<ProjectRecord>, x: Placed)
    ensures Count(x, Belongs(imported, ps)) > 0 <==>
            exists i :: 0 <= i < |ps| && Placed(ps[i].workspace, imported(ps[i])) == x
  {
    if ps != [] {
      BelongsOnlyTo(imported, ps[1..], x);
      BelongsCons(imported, ps[0], ps[1..], x);
      assert ps == [ps[0]] + ps[1..];
      if i :| 0 <= i < |ps| && Placed(ps[i].workspace, imported(ps[i])) == x && i > 0 {
        assert ps[1..][i - 1] == ps[i];
      }
    }
  }

  // ----- The law of the import

  /** The catalog completed with the Workspaces that Projects name and it does not list. */
  function Completed(
    workspaces: seq<WorkspaceRecord>, projects: seq<ProjectRecord>, missing: seq<string>
  ): seq<WorkspaceRecord> {
    Catalog(workspaces, projects) + RecoveredAll(missing)
  }

  /** What `Load` joins, given the order in which the missing Workspaces came. */
  function Loaded(
    workspaces: seq<WorkspaceRecord>, projects: seq<ProjectRecord>, missing: seq<string>,
    imported: ProjectRecord -> Project
  ):
    seq<Workspace>
  {
    Join(Completed(workspaces, projects, missing), Sort(Order, projects), imported)
  }

  lemma CatalogOccurs(id: string, workspaces: seq<WorkspaceRecord>, projects: seq<ProjectRecord>)
    ensures Occurs(id, workspaces) <= 1 <==> Occurs(id, Catalog(workspaces, projects)) <= 1
  {
    OccursSorted(id, workspaces);
  }

  lemma {:induction false} SortedUses(ps: seq<ProjectRecord>, id: string)
    requires exists i :: 0 <= i < |ps| && ps[i].workspace == id
    ensures exists i :: 0 <= i < |Sort(Order, ps)| && Sort(Order, ps)[i].workspace == id
  {
    var i :| 0 <= i < |ps| && ps[i].workspace == id;
    SortSorts(Order, ps);
    assert ps[i] in multiset(ps);
    assert ps[i] in Sort(Order, ps);
  }

  lemma CompletedOnce(id: string, workspaces: seq<WorkspaceRecord>, projects: seq<ProjectRecord>, missing: seq<string>)
    requires Completes(missing, Catalog(workspaces, projects), Sort(Order, projects))
    requires exists i :: 0 <= i < |projects| && projects[i].workspace == id
    ensures Occurs(id, Completed(workspaces, projects, missing)) >= 1
    ensures Occurs(id, Completed(workspaces, projects, missing)) == 1 <==> Occurs(id, workspaces) <= 1
  {
    SortedUses(projects, id);
    CompletedOccurs(id, missing, Catalog(workspaces, projects), Sort(Order, projects));
    CatalogOccurs(id, workspaces, projects);
  }

  /** Each placed Project is loaded once for every occurrence of its Workspace id. */
  lemma LoadedCounts(workspaces: seq<WorkspaceRecord>, projects: seq<ProjectRecord>, missing: seq<string>,
                     imported: ProjectRecord -> Project, x: Placed)
    ensures Count(x, AllPlaced(Loaded(workspaces, projects, missing, imported))) ==
            Occurs(x.workspace, Completed(workspaces, projects, missing)) * Count(x, Belongs(imported, projects))
  {
    JoinCounts(Completed(workspaces, projects, missing), Sort(Order, projects), imported, x);
    BelongsSorted(imported, projects, x);
  }

  /** No Project names a Workspace id that the catalog lists twice. */
  ghost predicate Unambiguous(workspaces: seq<WorkspaceRecord>, projects: seq<ProjectRecord>) {
    forall i :: 0 <= i < |projects| ==> Occurs(projects[i].workspace, workspaces) <= 1
  }

  /** No Project is ever lost, whatever the catalog. */
  lemma NothingLost(
    workspaces: seq<WorkspaceRecord>, projects: seq<ProjectRecord>, missing: seq<string>,
    imported: ProjectRecord -> Project
  )
    requires Completes(missing, Catalog(workspaces, projects), Sort(Order, projects))
    ensures multiset(Belongs(imported, projects)) <=
            multiset(AllPlaced(Loaded(workspaces, projects, missing, imported)))
  {
    var out, due := AllPlaced(Loaded(workspaces, projects, missing, imported)), Belongs(imported, projects);
    forall x ensures multiset(due)[x] <= multiset(out)[x] {
      CountIsMultiset(x, due);
      CountIsMultiset(x, out);
      AtLeastDue(workspaces, projects, missing, imported, x);
    }
  }

  lemma AtLeastDue(workspaces: seq<WorkspaceRecord>, projects: seq<ProjectRecord>, missing: seq<string>,
                   imported: ProjectRecord -> Project, x: Placed)
    requires Completes(missing, Catalog(workspaces, projects), Sort(Order, projects))
    ensures Count(x, Belongs(imported, projects)) <=
            Count(x, AllPlaced(Loaded(workspaces, projects, missing, imported)))
  {
    var due := Count(x, Belongs(imported, projects));
    LoadedCounts(workspaces, projects, missing, imported, x);
    if due > 0 {
      BelongsOnlyTo(imported, projects, x);
      CompletedOnce(x.workspace, workspaces, projects, missing);
      AtLeastOnce(Occurs(x.workspace, Completed(workspaces, projects, missing)), due);
    }
  }

  lemma ExactlyDue(workspaces: seq<WorkspaceRecord>, projects: seq<ProjectRecord>, missing: seq<string>,
                   imported: ProjectRecord -> Project, x: Placed)
    requires Completes(missing, Catalog(workspaces, projects), Sort(Order, projects))
    ensures Count(x, Belongs(imported, projects)) ==
            Count(x, AllPlaced(Loaded(workspaces, projects, missing, imported)))
            <==> (Count(x, Belongs(imported, projects)) > 0 ==> Occurs(x.workspace, workspaces) <= 1)
  {
    var due := Count(x, Belongs(imported, projects));
    LoadedCounts(workspaces, projects, missing, imported, x);
    if due > 0 {
      BelongsOnlyTo(imported, projects, x);
      CompletedOnce(x.workspace, workspaces, projects, missing);
      OnlyOnce(Occurs(x.workspace, Completed(workspaces, projects, missing)), due);
    }
  }

  lemma AtLeastOnce(k: nat, n: nat)
    requires k >= 1
    ensures n <= k * n
  {
  }

  lemma OnlyOnce(k: nat, n: nat)
    requires n > 0
    ensures k * n == n <==> k == 1
  {
    if k > 1 {
      OneMore(k - 2, n);
      OneMore(k - 1, n);
      assert (k - 2) * n >= 0;
    }
  }

  /** Every Project appears exactly once, under its own Workspace id, exactly when none names an id listed twice. */
  lemma ConservedExactlyWhen(workspaces: seq<WorkspaceRecord>, projects: seq<ProjectRecord>, missing: seq<string>,
                             imported: ProjectRecord -> Project)
    requires Completes(missing, Catalog(workspaces, projects), Sort(Order, projects))
    ensures multiset(AllPlaced(Loaded(workspaces, projects, missing, imported))) ==
            multiset(Belongs(imported, projects))
            <==> Unambiguous(workspaces, projects)
  {
    if Unambiguous(workspaces, projects) {
      UnambiguousConserves(workspaces, projects, missing, imported);
    } else if multiset(AllPlaced(Loaded(workspaces, projects, missing, imported))) ==
      multiset(Belongs(imported, projects)) {
      ConservedIsUnambiguous(workspaces, projects, missing, imported);
    }
  }

  lemma ExactlyDueIn(workspaces: seq<WorkspaceRecord>, projects: seq<ProjectRecord>, missing: seq<string>,
                     imported: ProjectRecord -> Project, x: Placed)
    requires Completes(missing, Catalog(workspaces, projects), Sort(Order, projects))
    ensures multiset(Belongs(imported, projects))[x] ==
            multiset(AllPlaced(Loaded(workspaces, projects, missing, imported)))[x]
            <==> (Count(x, Belongs(imported, projects)) > 0 ==> Occurs(x.workspace, workspaces) <= 1)
  {
    CountIsMultiset(x, Belongs(imported, projects));
    CountIsMultiset(x, AllPlaced(Loaded(workspaces, projects, missing, imported)));
    ExactlyDue(workspaces, projects, missing, imported, x);
  }

  lemma UnambiguousConserves(workspaces: seq<WorkspaceRecord>, projects: seq<ProjectRecord>, missing: seq<string>,
                             imported: ProjectRecord -> Project)
    requires Completes(missing, Catalog(workspaces, projects), Sort(Order, projects)) &&
            Unambiguous(workspaces, projects)
    ensures multiset(AllPlaced(Loaded(workspaces, projects, missing, imported))) ==
            multiset(Belongs(imported, projects))
  {
    var out, due := AllPlaced(Loaded(workspaces, projects, missing, imported)), Belongs(imported, projects);
    forall x ensures multiset(due)[x] == multiset(out)[x] {
      ExactlyDueIn(workspaces, projects, missing, imported, x);
      BelongsOnlyTo(imported, projects, x);
    }
  }

  lemma ConservedIsUnambiguous(workspaces: seq<WorkspaceRecord>, projects: seq<ProjectRecord>, missing: seq<string>,
                               imported: ProjectRecord -> Project)
    requires Completes(missing, Catalog(workspaces, projects), Sort(Order, projects))
    requires multiset(AllPlaced(Loaded(workspaces, projects, missing, imported))) ==
            multiset(Belongs(imported, projects))
    ensures Unambiguous(workspaces, projects)
  {
    forall i | 0 <= i < |projects| ensures Occurs(projects[i].workspace, workspaces) <= 1 {
      var x := Placed(projects[i].workspace, imported(projects[i]));
      ExactlyDueIn(workspaces, projects, missing, imported, x);
      BelongsOnlyTo(imported, projects, x);
    }
  }

  lemma {:induction false} DistinctOccurs(id: string, ws: seq<WorkspaceRecord>)
    requires Distinct(Map(WorkspaceId, ws))
    ensures Occurs(id, ws) <= 1
    ensures Occurs(id, ws) > 0 ==> id in Map(WorkspaceId, ws)
  {
    if ws != [] {
      var ids := Map(WorkspaceId, ws);
      assert ids[1..] == Map(WorkspaceId, ws[1..]);
      assert forall i, j :: 0 <= i < j < |ids[1..]| ==> ids[1..][i] == ids[i + 1] && ids[1..][j] == ids[j + 1];
      DistinctOccurs(id, ws[1..]);
      assert ids[0] == ws[0].id && ids[0] !in ids[1..];
    }
  }

  /** With distinct catalog ids, every Project appears exactly once, under its own Workspace id. */
  lemma DistinctConserves(workspaces: seq<WorkspaceRecord>, projects: seq<ProjectRecord>, missing: seq<string>,
                          imported: ProjectRecord -> Project)
    requires Completes(missing, Catalog(workspaces, projects), Sort(Order, projects))
    requires Distinct(Map(WorkspaceId, workspaces))
    ensures multiset(AllPlaced(Loaded(workspaces, projects, missing, imported))) ==
            multiset(Belongs(imported, projects))
  {
    forall i | 0 <= i < |projects| ensures Occurs(projects[i].workspace, workspaces) <= 1 {
      DistinctOccurs(projects[i].workspace, workspaces);
    }
    ConservedExactlyWhen(workspaces, projects, missing, imported);
  }

  // ----- What one Workspace becomes

  /** A title that is missing or blank gives a Tab without a name, any other one its trimmed text. */
  ghost predicate Names(tab: Tab, title: Option<string>) {
    tab.name == if title.None? || Text.Trim(title.value) == "" then None else Some(Text.Trim(title.value))
  }

  /** A Project record as it is imported: its fields, and a Tab for each title of its snapshot, or one without. */
  ghost predicate Imports(p: Project, r: ProjectRecord, snapshots: map<string, seq<Option<string>>>) {
    && p.id == r.id && p.name == Text.Trim(r.name) && p.path == r.path
    && if r.id in snapshots && snapshots[r.id] != []
       then |p.tabs| == |snapshots[r.id]| && forall i :: 0 <= i < |p.tabs| ==> Names(p.tabs[i], snapshots[r.id][i])
       else p.tabs == [Tab(None)]
  }

  /** What one output Workspace must be: its own Projects, by `sort_order`, ties in input order, each imported. */
  ghost predicate WellImported(
    w: Workspace, projects: seq<ProjectRecord>, snapshots: map<string, seq<Option<string>>>
  ) {
    var own := Sort(Order, Filter(In(w.id), projects));
    && |w.projects| == |own| > 0
    && forall k :: 0 <= k < |own| ==> Imports(w.projects[k], own[k], snapshots)
  }

  lemma {:induction false} EachIsImported(ps: seq<ProjectRecord>, snapshots: map<string, seq<Option<string>>>)
    ensures |Map(Importer(snapshots), ps)| == |ps|
    ensures forall k :: 0 <= k < |ps| ==> Imports(Map(Importer(snapshots), ps)[k], ps[k], snapshots)
  {
    if ps != [] {
      EachIsImported(ps[1..], snapshots);
      ImportImports(snapshots, ps[0]);
    }
  }

  lemma ImportImports(snapshots: map<string, seq<Option<string>>>, r: ProjectRecord)
    ensures Imports(Import(snapshots, r), r, snapshots)
  {
  }

  lemma JoinedOneWell(
    w: WorkspaceRecord, projects: seq<ProjectRecord>, snapshots: map<string, seq<Option<string>>>
  )
    ensures var one := JoinOne(w, Sort(Order, projects), Importer(snapshots));
            one != [] ==> |one| == 1 && WellImported(one[0], projects, snapshots)
  {
    SortIsStable(Order, In(w.id), projects);
    EachIsImported(Filter(In(w.id), Sort(Order, projects)), snapshots);
  }

  lemma {:induction false} JoinedWell(
    ws: seq<WorkspaceRecord>, projects: seq<ProjectRecord>, snapshots: map<string, seq<Option<string>>>, k: nat
  )
    requires k < |Join(ws, Sort(Order, projects), Importer(snapshots))|
    ensures WellImported(Join(ws, Sort(Order, projects), Importer(snapshots))[k], projects, snapshots)
  {
    var sorted, imported := Sort(Order, projects), Importer(snapshots);
    var one := JoinOne(ws[0], sorted, imported);
    if k < |one| {
      JoinedOneWell(ws[0], projects, snapshots);
    } else {
      JoinedWell(ws[1..], projects, snapshots, k - |one|);
    }
  }

  /** Of several snapshots of one Project the last one counts. */
  lemma {:induction false} LastSnapshotCounts(snapshots: seq<Snapshot>, i: nat)
    requires i < |snapshots| && forall k :: i < k < |snapshots| ==> snapshots[k].project != snapshots[i].project
    ensures var m := SnapshotMap(snapshots);
            snapshots[i].project in m && m[snapshots[i].project] == snapshots[i].titles
    decreases |snapshots|
  {
    if i < |snapshots| - 1 {
      LastSnapshotCounts(snapshots[..|snapshots| - 1], i);
    }
  }

  lemma {:induction false} OnlySnapshotsCount(snapshots: seq<Snapshot>, id: string)
    requires id in SnapshotMap(snapshots)
    ensures exists i :: 0 <= i < |snapshots| && snapshots[i].project == id
    decreases |snapshots|
  {
    var last := snapshots[|snapshots| - 1];
    if last.project != id {
      OnlySnapshotsCount(snapshots[..|snapshots| - 1], id);
      var i :| 0 <= i < |snapshots| - 1 && snapshots[..|snapshots| - 1][i].project == id;
      assert snapshots[i].project == id;
    }
  }

  // ----- The order of the Workspaces

  /** Some Project names the Workspace. */
  predicate Uses(ps: seq<ProjectRecord>, id: string) { exists i :: 0 <= i < |ps| && ps[i].workspace == id }

  function Populated(ps: seq<ProjectRecord>): WorkspaceRecord -> bool {
    (w: WorkspaceRecord) => Uses(ps, w.id)
  }

  lemma {:induction false} PopulatedExactly(ps: seq<ProjectRecord>, id: string)
    ensures Filter(In(id), ps) != [] <==> Uses(ps, id)
  {
    if ps != [] {
      PopulatedExactly(ps[1..], id);
      if i :| 0 <= i < |ps| && ps[i].workspace == id && i > 0 {
        assert ps[1..][i - 1] == ps[i];
      }
    }
  }

  /** The output Workspaces are the populated records, in the order of the records. */
  lemma {:induction false} JoinFollows(
    ws: seq<WorkspaceRecord>, ps: seq<ProjectRecord>, imported: ProjectRecord -> Project
  )
    ensures FromRecords(Join(ws, ps, imported), Filter(Populated(ps), ws))
  {
    if ws != [] {
      JoinFollows(ws[1..], ps, imported);
      PopulatedExactly(ps, ws[0].id);
    }
  }

  /** The catalog as it was given, or the default one when there is none. */
  function Given(workspaces: seq<WorkspaceRecord>, projects: seq<ProjectRecord>): seq<WorkspaceRecord> {
    if workspaces == [] && projects != [] then [DEFAULT] else workspaces
  }

  /** Each Workspace has the id and the trimmed name of its record. */
  ghost predicate FromRecords(joined: seq<Workspace>, records: seq<WorkspaceRecord>) {
    && |joined| == |records|
    && forall k :: 0 <= k < |records| ==>
         joined[k].id == records[k].id && joined[k].name == Text.Trim(records[k].name)
  }

  /**
   The Workspaces come in the order of the catalog's `sort_order`, ties as given, those without Projects left out;
   behind them those that only Projects name, each once.
   */
  ghost predicate Arranged(
    given: seq<WorkspaceRecord>, projects: seq<ProjectRecord>, joined: seq<Workspace>, listed: seq<WorkspaceRecord>,
    recovered: seq<WorkspaceRecord>
  ) {
    && FromRecords(joined, listed + recovered)
    && Sorted(CatalogOrder, listed) && SameTies(listed, Filter(Populated(projects), given))
    && AddsMissing(given, projects, recovered)
  }

  ghost predicate AddsMissing(
    given: seq<WorkspaceRecord>, projects: seq<ProjectRecord>, recovered: seq<WorkspaceRecord>
  ) {
    && (forall k :: 0 <= k < |recovered| ==> recovered[k].name == "Recovered " + recovered[k].id)
    && (forall j, k :: 0 <= j < k < |recovered| ==> recovered[j].id != recovered[k].id)
    && (forall k :: 0 <= k < |recovered| ==> OnlyNamed(given, projects, recovered[k].id))
    && (forall id :: OnlyNamed(given, projects, id) ==> exists k :: 0 <= k < |recovered| && recovered[k].id == id)
  }

  /** The records of each `sort_order` are the same, in the same order. */
  ghost predicate SameTies(a: seq<WorkspaceRecord>, b: seq<WorkspaceRecord>) {
    forall order :: Filter(Among(CatalogOrder, order), a) == Filter(Among(CatalogOrder, order), b)
  }

  /** A Project names the Workspace, but no record lists it. */
  ghost predicate OnlyNamed(given: seq<WorkspaceRecord>, projects: seq<ProjectRecord>, id: string) {
    Uses(projects, id) && forall k :: 0 <= k < |given| ==> given[k].id != id
  }

  /** Without a catalog there is one Workspace, named Default. */
  lemma DefaultIsGiven(projects: seq<ProjectRecord>)
    requires projects != []
    ensures |Given([], projects)| == 1
    ensures Given([], projects)[0].id == "default" && Given([], projects)[0].name == "Default"
  {
  }

  lemma CatalogIsSorted(workspaces: seq<WorkspaceRecord>, projects: seq<ProjectRecord>)
    ensures Catalog(workspaces, projects) == Sort(CatalogOrder, Given(workspaces, projects))
  {
    if workspaces == [] && projects != [] {
      assert [DEFAULT][1..] == [];
    }
  }

  lemma {:induction false} SameProjects(projects: seq<ProjectRecord>, id: string)
    ensures Uses(projects, id) <==> Uses(Sort(Order, projects), id)
  {
    var sorted := Sort(Order, projects);
    SortIsStable(Order, In(id), projects);
    SortSorts(Order, Filter(In(id), projects));
    PopulatedExactly(projects, id);
    PopulatedExactly(sorted, id);
    SortKeepsNone(Filter(In(id), projects));
  }

  lemma SortKeepsNone(ps: seq<ProjectRecord>)
    ensures Sort(Order, ps) == [] <==> ps == []
  {
    SortSorts(Order, ps);
    if ps != [] {
      assert ps[0] in multiset(ps);
      assert ps[0] in Sort(Order, ps);
    }
  }

  lemma {:induction false} SamePopulated(a: seq<ProjectRecord>, b: seq<ProjectRecord>, ws: seq<WorkspaceRecord>)
    requires forall id :: Uses(a, id) <==> Uses(b, id)
    ensures Filter(Populated(a), ws) == Filter(Populated(b), ws)
  {
    if ws != [] {
      SamePopulated(a, b, ws[1..]);
    }
  }

  lemma PopulatedCatalog(workspaces: seq<WorkspaceRecord>, projects: seq<ProjectRecord>)
    ensures Filter(Populated(Sort(Order, projects)), Catalog(workspaces, projects)) ==
            Sort(CatalogOrder, Filter(Populated(projects), Given(workspaces, projects)))
  {
    var sorted, given := Sort(Order, projects), Given(workspaces, projects);
    forall id ensures Uses(sorted, id) <==> Uses(projects, id) {
      SameProjects(projects, id);
    }
    SamePopulated(sorted, projects, given);
    CatalogIsSorted(workspaces, projects);
    SortIsStable(CatalogOrder, Populated(sorted), given);
  }

  lemma PopulatedRecovered(missing: seq<string>, ws: seq<WorkspaceRecord>, ps: seq<ProjectRecord>)
    requires Completes(missing, ws, ps)
    ensures Filter(Populated(ps), RecoveredAll(missing)) == RecoveredAll(missing)
  {
    forall k | 0 <= k < |missing| ensures Populated(ps)(RecoveredAll(missing)[k]) {
      var id := missing[k];
      assert id in missing;
      MissingExactly(missing, ws, ps, id);
    }
    FilterChosen(Populated(ps), RecoveredAll(missing));
  }

  /** The records that are populated: those of the sorted catalog, then all that were recovered. */
  lemma PopulatedRecords(workspaces: seq<WorkspaceRecord>, projects: seq<ProjectRecord>, missing: seq<string>)
    requires Completes(missing, Catalog(workspaces, projects), Sort(Order, projects))
    ensures Filter(Populated(Sort(Order, projects)), Completed(workspaces, projects, missing)) ==
            Sort(CatalogOrder, Filter(Populated(projects), Given(workspaces, projects))) + RecoveredAll(missing)
  {
    FilterConcat(Populated(Sort(Order, projects)), Catalog(workspaces, projects), RecoveredAll(missing));
    PopulatedCatalog(workspaces, projects);
    PopulatedRecovered(missing, Catalog(workspaces, projects), Sort(Order, projects));
  }

  lemma SameIds(ws: seq<WorkspaceRecord>, id: string)
    ensures id in Ids(Sort(CatalogOrder, ws)) <==> exists k :: 0 <= k < |ws| && ws[k].id == id
  {
    OccursSorted(id, ws);
    OccursIffKnown(id, ws);
    OccursIffKnown(id, Sort(CatalogOrder, ws));
  }

  lemma MissingExactly(missing: seq<string>, ws: seq<WorkspaceRecord>, ps: seq<ProjectRecord>, id: string)
    requires Completes(missing, ws, ps)
    ensures id in missing <==> Uses(ps, id) && id !in Ids(ws)
  {
    assert id in missing <==> id in (set i | 0 <= i < |missing| :: missing[i]);
    if Uses(ps, id) && id !in Ids(ws) {
      var i :| 0 <= i < |ps| && ps[i].workspace == id;
      assert ps[i].workspace in MissingIds(ws, ps);
    }
    if id in MissingIds(ws, ps) {
      var i :| 0 <= i < |ps| && ps[i].workspace !in Ids(ws) && ps[i].workspace == id;
      assert Uses(ps, id);
    }
  }

  lemma RecoveredExactly(
    workspaces: seq<WorkspaceRecord>, projects: seq<ProjectRecord>, missing: seq<string>, id: string
  )
    requires Completes(missing, Catalog(workspaces, projects), Sort(Order, projects))
    ensures id in missing <==> OnlyNamed(Given(workspaces, projects), projects, id)
  {
    var sorted := Sort(Order, projects);
    SameProjects(projects, id);
    CatalogIsSorted(workspaces, projects);
    SameIds(Given(workspaces, projects), id);
    MissingExactly(missing, Catalog(workspaces, projects), sorted, id);
  }

  lemma MissingAdded(workspaces: seq<WorkspaceRecord>, projects: seq<ProjectRecord>, missing: seq<string>)
    requires Completes(missing, Catalog(workspaces, projects), Sort(Order, projects))
    ensures AddsMissing(Given(workspaces, projects), projects, RecoveredAll(missing))
  {
    var recovered := RecoveredAll(missing);
    forall k | 0 <= k < |recovered| ensures OnlyNamed(Given(workspaces, projects), projects, recovered[k].id) {
      RecoveredExactly(workspaces, projects, missing, missing[k]);
    }
    forall id | OnlyNamed(Given(workspaces, projects), projects, id)
      ensures exists k :: 0 <= k < |recovered| && recovered[k].id == id
    {
      RecoveredExactly(workspaces, projects, missing, id);
      var k :| 0 <= k < |missing| && missing[k] == id;
      assert recovered[k].id == id;
    }
  }

  lemma LoadedArranged(workspaces: seq<WorkspaceRecord>, projects: seq<ProjectRecord>, missing: seq<string>,
                       imported: ProjectRecord -> Project)
    requires Completes(missing, Catalog(workspaces, projects), Sort(Order, projects))
    ensures var listed := Sort(CatalogOrder, Filter(Populated(projects), Given(workspaces, projects)));
            Arranged(Given(workspaces, projects), projects, Loaded(workspaces, projects, missing, imported), listed,
                     RecoveredAll(missing))
  {
    var chosen := Filter(Populated(projects), Given(workspaces, projects));
    JoinFollows(Completed(workspaces, projects, missing), Sort(Order, projects), imported);
    PopulatedRecords(workspaces, projects, missing);
    SortSorts(CatalogOrder, chosen);
    SortedTies(chosen);
    MissingAdded(workspaces, projects, missing);
  }

  lemma SortedTies(ws: seq<WorkspaceRecord>)
    ensures SameTies(Sort(CatalogOrder, ws), ws)
  {
    forall order
      ensures Filter(Among(CatalogOrder, order), Sort(CatalogOrder, ws)) == Filter(Among(CatalogOrder, order), ws)
    {
      TiesKeepOrder(CatalogOrder, order, ws);
    }
  }

  // ----- The whole import

  /** The join of the catalog completed with the missing Workspaces, in whatever order they came. */
  ghost predicate LoadedInSomeOrder(
    workspaces: seq<WorkspaceRecord>, projects: seq<ProjectRecord>, imported: ProjectRecord -> Project,
    joined: seq<Workspace>
  ) {
    exists missing :: Completes(missing, Catalog(workspaces, projects), Sort(Order, projects))
                      && joined == Loaded(workspaces, projects, missing, imported)
  }

  method Load(workspaces: seq<WorkspaceRecord>, projects: seq<ProjectRecord>, snapshots: seq<Snapshot>)
    returns (joined: seq<Workspace>)
    ensures LoadedInSomeOrder(workspaces, projects, Importer(SnapshotMap(snapshots)), joined)
    ensures multiset(AllPlaced(joined)) == multiset(Belongs(Importer(SnapshotMap(snapshots)), projects))
            <==> Unambiguous(workspaces, projects)
    ensures forall k :: 0 <= k < |joined| ==> WellImported(joined[k], projects, SnapshotMap(snapshots))
    ensures exists listed, recovered :: Arranged(Given(workspaces, projects), projects, joined, listed, recovered)
  {
    var sorted := Sort(Order, projects);
    var catalog := Catalog(workspaces, projects);
    var order := Recover(MissingIds(catalog, sorted));
    joined := JoinLoop(catalog + RecoveredAll(order), sorted, SnapshotMap(snapshots));
    assert joined == Loaded(workspaces, projects, order, Importer(SnapshotMap(snapshots)));
    ConservedExactlyWhen(workspaces, projects, order, Importer(SnapshotMap(snapshots)));
    LoadedArranged(workspaces, projects, order, Importer(SnapshotMap(snapshots)));
    forall k | 0 <= k < |joined| ensures WellImported(joined[k], projects, SnapshotMap(snapshots)) {
      JoinedWell(catalog + RecoveredAll(order), projects, SnapshotMap(snapshots), k);
    }
  }
}
