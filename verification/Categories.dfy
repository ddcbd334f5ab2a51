/** The category table: every service call is one transaction, taken here as one step. */
module Categories {
  import opened Wrappers
  import opened Text

  datatype Kind = Expense | Income

  datatype Row = Row(id: string, workspace: string, parent: Option<string>, name: string, kind: Kind, icon: Option<string>,
                     sortOrder: int, systemKey: Option<string>, deletedAt: Option<int>)

  datatype Input = Input(name: string, icon: Option<string>, parent: Option<string>)

  datatype Refusal = NameLength | IconLength | NotFound | HasChildren | BadParent | Duplicate | IdsNotUnique | NotSiblings

  type Table = map<string, Row>

  function Validate(input: Input): Result<Input, Refusal> {
    var name, icon := Trim(input.name), NonEmpty(input.icon);
    if name == "" || |name| > 100 then Err(NameLength)
    else if icon.Some? && |icon.value| > 32 then Err(IconLength)
    else Ok(Input(name, icon, NonEmpty(input.parent)))
  }

  /** An active top-level category of the workspace, of the type if one is asked for. */
  predicate IsActiveParent(rows: Table, p: string, ws: string, except: Option<string>, kind: Option<Kind>) {
    p in rows && rows[p].workspace == ws && rows[p].deletedAt.None? && (kind.Some? ==> rows[p].kind == kind.value)
    && rows[p].parent.None? && Some(p) != except
  }

  predicate Collides(r: Row, name: string, parent: Option<string>, ws: string, except: Option<string>, kind: Kind) {
    r.workspace == ws && r.parent == parent && r.deletedAt.None? && Lower(r.name) == Lower(name) && r.kind == kind && Some(r.id) != except
  }

  predicate IsTaken(rows: Table, name: string, parent: Option<string>, ws: string, except: Option<string>, kind: Kind) {
    exists k :: k in rows && Collides(rows[k], name, parent, ws, except, kind)
  }

  function ActiveGroup(rows: Table, parent: Option<string>, ws: string, kind: Kind): set<string> {
    set k | k in rows && rows[k].workspace == ws && rows[k].parent == parent && rows[k].deletedAt.None? && rows[k].kind == kind
  }

  /** One more than the largest order of the group; 1 in an empty group. */
  ghost predicate IsNextOrder(rows: Table, group: set<string>, n: int)
    requires forall k :: k in group ==> k in rows
  {
    if group == {} then n == 1
    else (exists k :: k in group && rows[k].sortOrder == n - 1) && forall k :: k in group ==> rows[k].sortOrder < n
  }

  datatype Done<T> = Done(rows: Table, answer: Result<T, Refusal>)

  function Create(rows: Table, id: string, input: Input, kind: Kind, ws: string, order: int): Done<Row> {
    match Validate(input)
    case Err(e) => Done(rows, Err(e))
    case Ok(v) =>
      if v.parent.Some? && !IsActiveParent(rows, v.parent.value, ws, None, Some(kind)) then Done(rows, Err(BadParent))
      else if IsTaken(rows, v.name, v.parent, ws, None, kind) then Done(rows, Err(Duplicate))
      else
        var row := Row(id, ws, v.parent, v.name, kind, v.icon, order, None, None);
        Done(rows[id := row], Ok(row))
  }

  predicate HasChildRows(rows: Table, id: string) {
    exists k :: k in rows && rows[k].parent == Some(id)
  }

  function Update(rows: Table, id: string, input: Input, ws: string): Done<Row> {
    if id !in rows || rows[id].workspace != ws || rows[id].deletedAt.Some? then Done(rows, Err(NotFound))
    else
      var existing := rows[id];
      match Validate(input)
      case Err(e) => Done(rows, Err(e))
      case Ok(v) =>
        if HasChildRows(rows, id) && v.parent.Some? then Done(rows, Err(HasChildren))
        else if v.parent.Some? && !IsActiveParent(rows, v.parent.value, ws, Some(id), Some(existing.kind)) then Done(rows, Err(BadParent))
        else if IsTaken(rows, v.name, v.parent, ws, Some(id), existing.kind) then Done(rows, Err(Duplicate))
        else
          var row := existing.(name := v.name, icon := v.icon, parent := v.parent,
                               systemKey := if v.name != existing.name then None else existing.systemKey);
          Done(rows[id := row], Ok(row))
  }

  /** The category and its children take one archive stamp, or lose it. */
  function Stamped(rows: Table, id: string, ws: string, at: Option<int>): Table {
    map k | k in rows :: if rows[k].workspace == ws && (k == id || rows[k].parent == Some(id)) then rows[k].(deletedAt := at) else rows[k]
  }

  function Archive(rows: Table, id: string, ws: string, at: int): Done<Row> {
    if id !in rows || rows[id].workspace != ws || rows[id].deletedAt.Some? then Done(rows, Err(NotFound))
    else Done(Stamped(rows, id, ws, Some(at)), Ok(rows[id].(deletedAt := Some(at))))
  }

  function Restore(rows: Table, id: string, ws: string): Done<Row> {
    if id !in rows || rows[id].workspace != ws || rows[id].deletedAt.None? then Done(rows, Err(NotFound))
    else
      var row := rows[id];
      if row.parent.Some? && !IsActiveParent(rows, row.parent.value, ws, None, None) then Done(rows, Err(BadParent))
      else if IsTaken(rows, row.name, row.parent, ws, Some(id), row.kind) then Done(rows, Err(Duplicate))
      else Done(Stamped(rows, id, ws, None), Ok(row.(deletedAt := None)))
  }

  predicate NoRepeat(ids: seq<string>) {
    forall i, j :: 0 <= i < j < |ids| ==> ids[i] != ids[j]
  }

  predicate AreActiveSiblings(rows: Table, ids: seq<string>, ws: string) {
    && (forall i :: 0 <= i < |ids| ==> ids[i] in rows && rows[ids[i]].workspace == ws && rows[ids[i]].deletedAt.None?)
    && (forall i, j :: 0 <= i < |ids| && 0 <= j < |ids| ==> rows[ids[i]].parent == rows[ids[j]].parent)
  }

  /** Position n in the list becomes order n + 1. */
  function Renumbered(rows: Table, ids: seq<string>): Table {
    if ids == [] then rows
    else
      var before := Renumbered(rows, ids[..|ids| - 1]);
      var last := ids[|ids| - 1];
      if last in before then before[last := before[last].(sortOrder := |ids|)] else before
  }

  function Reorder(rows: Table, ids: seq<string>, ws: string): Done<()> {
    if ids == [] || !NoRepeat(ids) then Done(rows, Err(IdsNotUnique))
    else if !AreActiveSiblings(rows, ids, ws) then Done(rows, Err(NotSiblings))
    else Done(Renumbered(rows, ids), Ok(()))
  }

  datatype Step =
    | CreateStep(id: string, input: Input, kind: Kind, workspace: string, order: int)
    | UpdateStep(id: string, input: Input, workspace: string)
    | ReorderStep(ids: seq<string>, workspace: string)
    | ArchiveStep(id: string, workspace: string, at: int)
    | RestoreStep(id: string, workspace: string)

  function Next(rows: Table, a: Step): Table {
    match a
    case CreateStep(id, input, kind, ws, order) => if id in rows then rows else Create(rows, id, input, kind, ws, order).rows
    case UpdateStep(id, input, ws) => Update(rows, id, input, ws).rows
    case ReorderStep(ids, ws) => Reorder(rows, ids, ws).rows
    case ArchiveStep(id, ws, at) => Archive(rows, id, ws, at).rows
    case RestoreStep(id, ws) => Restore(rows, id, ws).rows
  }

  function Run(rows: Table, steps: seq<Step>): Table
    decreases |steps|
  {
    if steps == [] then rows else Next(Run(rows, steps[..|steps| - 1]), steps[|steps| - 1])
  }

  // ----- the forest -----

  /** A subcategory hangs under a top-level category of its workspace and type, and is active only if that one is. */
  predicate ChildOk(rows: Table, r: Row) {
    r.parent.Some? ==>
      r.parent.value in rows
      && var p := rows[r.parent.value];
         p.parent.None? && p.workspace == r.workspace && p.kind == r.kind && (r.deletedAt.None? ==> p.deletedAt.None?)
  }

  ghost predicate Forest(rows: Table) {
    forall k :: k in rows ==> rows[k].id == k && ChildOk(rows, rows[k])
  }

  lemma CreateKeeps(rows: Table, id: string, input: Input, kind: Kind, ws: string, order: int)
    requires Forest(rows) && id !in rows
    ensures Forest(Create(rows, id, input, kind, ws, order).rows)
  {
    hide Validate, IsTaken;
    var t := Create(rows, id, input, kind, ws, order).rows;
    forall k | k in t ensures t[k].id == k && ChildOk(t, t[k]) {
      assert k in rows ==> ChildOk(rows, rows[k]);
    }
  }

  lemma UpdateKeeps(rows: Table, id: string, input: Input, ws: string)
    requires Forest(rows)
    ensures Forest(Update(rows, id, input, ws).rows)
  {
    hide Validate, IsTaken, HasChildRows;
    var t := Update(rows, id, input, ws).rows;
    if t != rows && t[id].parent.Some? {
      NoChildRows(rows, id);
    }
    forall k | k in t ensures t[k].id == k && ChildOk(t, t[k]) {
      assert ChildOk(rows, rows[k]);
    }
  }

  lemma NoChildRows(rows: Table, id: string)
    requires !HasChildRows(rows, id)
    ensures forall k :: k in rows ==> rows[k].parent != Some(id)
  {
  }

  /** What an accepted edit changes: name, icon and place of one active category; a renamed default category is no longer a default one. */
  lemma UpdateChanges(rows: Table, id: string, input: Input, ws: string)
    requires Forest(rows) && Update(rows, id, input, ws).answer.Ok?
    ensures var t := Update(rows, id, input, ws).rows;
            && t.Keys == rows.Keys && (forall k :: k in rows && k != id ==> t[k] == rows[k])
            && t[id].name == Trim(input.name) && 1 <= |t[id].name| <= 100 && t[id].icon == NonEmpty(input.icon)
            && t[id].parent == NonEmpty(input.parent) && t[id].parent != Some(id)
            && t[id].kind == rows[id].kind && t[id].workspace == ws && t[id].sortOrder == rows[id].sortOrder && t[id].deletedAt.None?
            && (t[id].name == rows[id].name ==> t[id].systemKey == rows[id].systemKey)
            && (t[id].name != rows[id].name ==> t[id].systemKey.None?)
            && (t[id].parent.Some? ==> (forall k :: k in rows ==> rows[k].parent != Some(id)) && rows[t[id].parent.value].kind == rows[id].kind)
  {
    hide IsTaken, Trim;
    if NonEmpty(input.parent).Some? {
      NoChildRows(rows, id);
    }
  }

  lemma ArchiveKeeps(rows: Table, id: string, ws: string, at: int)
    requires Forest(rows)
    ensures Forest(Archive(rows, id, ws, at).rows)
  {
    var t := Archive(rows, id, ws, at).rows;
    forall k | k in t ensures t[k].id == k && ChildOk(t, t[k]) {
      assert ChildOk(rows, rows[k]);
    }
  }

  lemma RestoreKeeps(rows: Table, id: string, ws: string)
    requires Forest(rows)
    ensures Forest(Restore(rows, id, ws).rows)
  {
    hide IsTaken;
    var t := Restore(rows, id, ws).rows;
    forall k | k in t ensures t[k].id == k && ChildOk(t, t[k]) {
      assert ChildOk(rows, rows[k]);
    }
  }

  /** What a renumbering does to each row. */
  lemma {:induction false} RenumberedRows(rows: Table, ids: seq<string>)
    requires NoRepeat(ids)
    ensures Renumbered(rows, ids).Keys == rows.Keys
    ensures forall k :: k in rows && k !in ids ==> Renumbered(rows, ids)[k] == rows[k]
    ensures forall i :: 0 <= i < |ids| && ids[i] in rows ==> Renumbered(rows, ids)[ids[i]] == rows[ids[i]].(sortOrder := i + 1)
  {
    if ids != [] {
      var init, last := ids[..|ids| - 1], ids[|ids| - 1];
      RenumberedRows(rows, init);
      assert ids == init + [last];
      assert last !in init;
    }
  }

  lemma ReorderKeeps(rows: Table, ids: seq<string>, ws: string)
    requires Forest(rows)
    ensures Forest(Reorder(rows, ids, ws).rows)
  {
    hide Renumbered, AreActiveSiblings;
    var t := Reorder(rows, ids, ws).rows;
    if t != rows {
      RenumberedRows(rows, ids);
      forall k | k in t ensures SameButOrder(rows[k], t[k]) {
        if k in ids {
          var i :| 0 <= i < |ids| && ids[i] == k;
        }
      }
      forall k | k in t ensures t[k].id == k && ChildOk(t, t[k]) {
        assert ChildOk(rows, rows[k]) && SameButOrder(rows[k], t[k]);
        assert rows[k].parent.Some? ==> SameButOrder(rows[rows[k].parent.value], t[rows[k].parent.value]);
      }
    }
  }

  predicate SameButOrder(a: Row, b: Row) {
    b == a.(sortOrder := b.sortOrder)
  }

  lemma NextKeeps(rows: Table, a: Step)
    requires Forest(rows)
    ensures Forest(Next(rows, a))
  {
    hide Create, Update, Reorder, Archive, Restore, Forest;
    match a
    case CreateStep(id, input, kind, ws, order) => if id !in rows { CreateKeeps(rows, id, input, kind, ws, order); }
    case UpdateStep(id, input, ws) => UpdateKeeps(rows, id, input, ws);
    case ReorderStep(ids, ws) => ReorderKeeps(rows, ids, ws);
    case ArchiveStep(id, ws, at) => ArchiveKeeps(rows, id, ws, at);
    case RestoreStep(id, ws) => RestoreKeeps(rows, id, ws);
  }

  /** Every reachable table is a forest of depth at most two, whatever the calls. */
  lemma {:induction false} EveryRunForest(rows: Table, steps: seq<Step>)
    requires Forest(rows)
    ensures Forest(Run(rows, steps))
    decreases |steps|
  {
    hide Forest, Next;
    if steps != [] {
      EveryRunForest(rows, steps[..|steps| - 1]);
      NextKeeps(Run(rows, steps[..|steps| - 1]), steps[|steps| - 1]);
    }
  }

  /** A chain of parents ends after at most one link. */
  lemma DepthAtMostTwo(rows: Table, child: string)
    requires Forest(rows) && child in rows && rows[child].parent.Some?
    ensures rows[child].parent.value in rows && rows[child].parent.value != child && rows[rows[child].parent.value].parent.None?
  {
    assert ChildOk(rows, rows[child]);
  }

  // ----- names among siblings -----

  predicate Twins(a: Row, b: Row) {
    a.id != b.id && a.workspace == b.workspace && a.parent == b.parent && a.kind == b.kind && Lower(a.name) == Lower(b.name)
  }

  /** No two active siblings share a name, letter case aside. */
  ghost predicate UniqueNames(rows: Table) {
    forall j, k :: j in rows && k in rows && rows[j].deletedAt.None? && rows[k].deletedAt.None? ==> !Twins(rows[j], rows[k])
  }

  lemma NotTaken(rows: Table, name: string, parent: Option<string>, ws: string, except: Option<string>, kind: Kind, k: string)
    requires !IsTaken(rows, name, parent, ws, except, kind) && k in rows
    ensures !Collides(rows[k], name, parent, ws, except, kind)
  {
  }

  lemma CreateUnique(rows: Table, id: string, input: Input, kind: Kind, ws: string, order: int)
    requires Forest(rows) && UniqueNames(rows) && id !in rows
    ensures UniqueNames(Create(rows, id, input, kind, ws, order).rows)
  {
    hide Validate, Lower, IsTaken, IsActiveParent, ChildOk;
    var d := Create(rows, id, input, kind, ws, order);
    if d.answer.Ok? {
      var r := d.answer.value;
      forall k | k in rows && rows[k].deletedAt.None? ensures !Twins(rows[k], r) && !Twins(r, rows[k]) {
        NotTaken(rows, r.name, r.parent, ws, None, kind, k);
      }
    }
  }

  lemma UpdateUnique(rows: Table, id: string, input: Input, ws: string)
    requires Forest(rows) && UniqueNames(rows)
    ensures UniqueNames(Update(rows, id, input, ws).rows)
  {
    hide Validate, Lower, IsTaken, IsActiveParent, ChildOk, HasChildRows;
    var d := Update(rows, id, input, ws);
    if d.answer.Ok? {
      var r := d.answer.value;
      forall k | k in rows && k != id && rows[k].deletedAt.None? ensures !Twins(rows[k], r) && !Twins(r, rows[k]) {
        NotTaken(rows, r.name, r.parent, ws, Some(id), r.kind, k);
      }
    }
  }

  lemma ArchiveUnique(rows: Table, id: string, ws: string, at: int)
    requires UniqueNames(rows)
    ensures UniqueNames(Archive(rows, id, ws, at).rows)
  {
    hide Lower;
    var t := Archive(rows, id, ws, at).rows;
    forall j, k | j in t && k in t && t[j].deletedAt.None? && t[k].deletedAt.None? ensures !Twins(t[j], t[k]) {
      assert t[j] == rows[j] && t[k] == rows[k];
    }
  }

  lemma ReorderUnique(rows: Table, ids: seq<string>, ws: string)
    requires UniqueNames(rows)
    ensures UniqueNames(Reorder(rows, ids, ws).rows)
  {
    hide Renumbered, AreActiveSiblings, Lower;
    var t := Reorder(rows, ids, ws).rows;
    if t != rows {
      RenumberedRows(rows, ids);
      forall k | k in t ensures SameButOrder(rows[k], t[k]) {
        if k in ids {
          var i :| 0 <= i < |ids| && ids[i] == k;
        }
      }
      forall j, k | j in t && k in t && t[j].deletedAt.None? && t[k].deletedAt.None? ensures !Twins(t[j], t[k]) {
        assert SameButOrder(rows[j], t[j]) && SameButOrder(rows[k], t[k]);
      }
    }
  }

  lemma OthersKeepNames(rows: Table, a: Step)
    requires Forest(rows) && UniqueNames(rows) && !a.RestoreStep?
    ensures UniqueNames(Next(rows, a))
  {
    hide Create, Update, Reorder, Archive, Forest, UniqueNames;
    match a
    case CreateStep(id, input, kind, ws, order) => if id !in rows { CreateUnique(rows, id, input, kind, ws, order); }
    case UpdateStep(id, input, ws) => UpdateUnique(rows, id, input, ws);
    case ReorderStep(ids, ws) => ReorderUnique(rows, ids, ws);
    case ArchiveStep(id, ws, at) => ArchiveUnique(rows, id, ws, at);
  }

  /** The children of a category, archived ones included, have different names. */
  ghost predicate ChildrenDiffer(rows: Table, id: string) {
    forall j, k :: j in rows && k in rows && rows[j].parent == Some(id) && rows[k].parent == Some(id) ==> !Twins(rows[j], rows[k])
  }

  /** Only restoring a category can break the rule, and it does so exactly when two of its children share a name. */
  lemma RestoreUniqueExactly(rows: Table, id: string, ws: string)
    requires Forest(rows) && UniqueNames(rows) && Restore(rows, id, ws).answer.Ok?
    ensures UniqueNames(Restore(rows, id, ws).rows) <==> ChildrenDiffer(rows, id)
  {
    hide Lower, IsActiveParent, IsTaken;
    var t := Restore(rows, id, ws).rows;
    var r := rows[id];
    assert forall k :: k in rows && rows[k].parent == Some(id) ==> t[k] == rows[k].(deletedAt := None) by {
      forall k | k in rows && rows[k].parent == Some(id) ensures rows[k].workspace == ws {
        assert ChildOk(rows, rows[k]);
      }
    }
    if ChildrenDiffer(rows, id) {
      forall j, k | j in t && k in t && t[j].deletedAt.None? && t[k].deletedAt.None? ensures !Twins(t[j], t[k]) {
        RestoredPair(rows, id, ws, j, k);
      }
    } else {
      var j, k :| j in rows && k in rows && rows[j].parent == Some(id) && rows[k].parent == Some(id) && Twins(rows[j], rows[k]);
      assert Twins(t[j], t[k]);
    }
  }

  lemma RestoredPair(rows: Table, id: string, ws: string, j: string, k: string)
    requires Forest(rows) && UniqueNames(rows) && Restore(rows, id, ws).answer.Ok? && ChildrenDiffer(rows, id)
    requires j in rows && k in rows
    ensures var t := Restore(rows, id, ws).rows;
            t[j].deletedAt.None? && t[k].deletedAt.None? ==> !Twins(t[j], t[k])
  {
    hide Lower, IsActiveParent, IsTaken;
    var r := rows[id];
    NotTaken(rows, r.name, r.parent, ws, Some(id), r.kind, j);
    NotTaken(rows, r.name, r.parent, ws, Some(id), r.kind, k);
    assert ChildOk(rows, rows[j]) && ChildOk(rows, rows[k]) && ChildOk(rows, r);
  }

  // A run in which it happens: a second "R" is created while the first is archived, then the parent goes and comes back.

  function HomeRow(at: Option<int>): Row {
    Row("p", "w", None, "H", Expense, None, 1, None, at)
  }

  function RentRow(id: string, at: Option<int>): Row {
    Row(id, "w", Some("p"), "R", Expense, None, 1, None, at)
  }

  const CREATE_HOME := CreateStep("p", Input("H", None, None), Expense, "w", 1)
  const CREATE_RENT := CreateStep("a", Input("R", None, Some("p")), Expense, "w", 1)
  const ARCHIVE_RENT := ArchiveStep("a", "w", 5)
  const CREATE_AGAIN := CreateStep("b", Input("R", None, Some("p")), Expense, "w", 1)
  const ARCHIVE_HOME := ArchiveStep("p", "w", 7)

  lemma TrimOne(c: char)
    requires !IsSpace(c)
    ensures Trim([c]) == [c]
  {
  }

  lemma HomeCreated()
    ensures Next(map[], CREATE_HOME) == map["p" := HomeRow(None)]
  {
    TrimOne('H');
  }

  lemma RentCreated()
    ensures Next(map["p" := HomeRow(None)], CREATE_RENT) == map["p" := HomeRow(None), "a" := RentRow("a", None)]
  {
    TrimOne('R');
    TrimOne('p');
    DifferentIds();
  }

  lemma RentArchived()
    ensures Next(map["p" := HomeRow(None), "a" := RentRow("a", None)], ARCHIVE_RENT) == map["p" := HomeRow(None), "a" := RentRow("a", Some(5))]
  {
    DifferentIds();
  }

  lemma RentCreatedAgain()
    ensures Next(map["p" := HomeRow(None), "a" := RentRow("a", Some(5))], CREATE_AGAIN)
            == map["p" := HomeRow(None), "a" := RentRow("a", Some(5)), "b" := RentRow("b", None)]
  {
    TrimOne('R');
    TrimOne('p');
    DifferentIds();
  }

  lemma HomeArchived()
    ensures Next(map["p" := HomeRow(None), "a" := RentRow("a", Some(5)), "b" := RentRow("b", None)], ARCHIVE_HOME)
            == map["p" := HomeRow(Some(7)), "a" := RentRow("a", Some(7)), "b" := RentRow("b", Some(7))]
  {
    DifferentIds();
  }

  lemma DifferentIds()
    ensures "a" != "b" && "a" != "p" && "b" != "p"
  {
    assert "a"[0] != "b"[0] && "a"[0] != "p"[0] && "b"[0] != "p"[0];
  }

  lemma RunStep(rows: Table, steps: seq<Step>, a: Step)
    ensures Run(rows, steps + [a]) == Next(Run(rows, steps), a)
  {
    assert (steps + [a])[..|steps|] == steps;
  }

  const TWIN_RUN: seq<Step> := [CREATE_HOME, CREATE_RENT, ARCHIVE_RENT, CREATE_AGAIN, ARCHIVE_HOME]

  lemma TwinRunEnds()
    ensures Run(map[], TWIN_RUN) == map["p" := HomeRow(Some(7)), "a" := RentRow("a", Some(7)), "b" := RentRow("b", Some(7))]
  {
    hide Next, HomeRow, RentRow;
    var p1, p2, p3, p4 := [CREATE_HOME], [CREATE_HOME, CREATE_RENT], [CREATE_HOME, CREATE_RENT, ARCHIVE_RENT],
                          [CREATE_HOME, CREATE_RENT, ARCHIVE_RENT, CREATE_AGAIN];
    assert [] + [CREATE_HOME] == p1 && p1 + [CREATE_RENT] == p2 && p2 + [ARCHIVE_RENT] == p3 && p3 + [CREATE_AGAIN] == p4;
    assert p4 + [ARCHIVE_HOME] == TWIN_RUN;
    RunStep(map[], [], CREATE_HOME);
    RunStep(map[], p1, CREATE_RENT);
    RunStep(map[], p2, ARCHIVE_RENT);
    RunStep(map[], p3, CREATE_AGAIN);
    RunStep(map[], p4, ARCHIVE_HOME);
    HomeCreated();
    RentCreated();
    RentArchived();
    RentCreatedAgain();
    HomeArchived();
  }

  lemma RestoreCanRepeatNames()
    ensures var rows := Run(map[], TWIN_RUN);
            Forest(rows) && UniqueNames(rows) && Restore(rows, "p", "w").answer.Ok? && !UniqueNames(Restore(rows, "p", "w").rows)
  {
    var rows: Table := map["p" := HomeRow(Some(7)), "a" := RentRow("a", Some(7)), "b" := RentRow("b", Some(7))];
    assert Run(map[], TWIN_RUN) == rows by { TwinRunEnds(); }
    hide Run, Lower;
    DifferentIds();
    assert rows["a"].id == "a" && rows["b"].id == "b" && rows["p"].id == "p";
    assert Twins(rows["a"], rows["b"]);
    assert !ChildrenDiffer(rows, "p");
    RestoreUniqueExactly(rows, "p", "w");
  }
}
