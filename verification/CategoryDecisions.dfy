/** When each category call is accepted, which refusal it meets otherwise, and the rows it leaves. */
module CategoryDecisions {
  import opened Wrappers
  import opened Text
  import opened Categories

  /** One of the active categories of a group: a workspace, a parent or none, a type. */
  predicate InGroup(r: Row, ws: string, parent: Option<string>, kind: Kind) {
    r.workspace == ws && r.parent == parent && r.kind == kind && r.deletedAt.None?
  }

  /** Another active category of the group has the name, letter case aside. */
  predicate NameUsed(rows: Table, name: string, parent: Option<string>, ws: string, kind: Kind, except: Option<string>) {
    exists k :: k in rows && Some(rows[k].id) != except && InGroup(rows[k], ws, parent, kind) && Lower(rows[k].name) == Lower(name)
  }

  /** A parent, if one is asked for, is an active top-level category of the workspace and type, and not the category itself. */
  predicate ParentFits(rows: Table, parent: Option<string>, ws: string, kind: Kind, self: Option<string>) {
    parent.Some? ==> parent.value in rows && parent != self && InGroup(rows[parent.value], ws, None, kind)
  }

  lemma NameUsedExactly(rows: Table, name: string, parent: Option<string>, ws: string, except: Option<string>, kind: Kind)
    ensures IsTaken(rows, name, parent, ws, except, kind) <==> NameUsed(rows, name, parent, ws, kind, except)
  {
    hide Lower;
    if IsTaken(rows, name, parent, ws, except, kind) {
      var k :| k in rows && Collides(rows[k], name, parent, ws, except, kind);
      assert InGroup(rows[k], ws, parent, kind);
    }
    if NameUsed(rows, name, parent, ws, kind, except) {
      var k :| k in rows && Some(rows[k].id) != except && InGroup(rows[k], ws, parent, kind) && Lower(rows[k].name) == Lower(name);
      assert Collides(rows[k], name, parent, ws, except, kind);
    }
  }

  lemma CreateDecided(rows: Table, id: string, input: Input, kind: Kind, ws: string, order: int)
    ensures var d := Create(rows, id, input, kind, ws, order);
            var name, icon, parent := Trim(input.name), NonEmpty(input.icon), NonEmpty(input.parent);
            if name == "" || |name| > 100 then d == Done(rows, Err(NameLength))
            else if icon.Some? && |icon.value| > 32 then d == Done(rows, Err(IconLength))
            else if !ParentFits(rows, parent, ws, kind, None) then d == Done(rows, Err(BadParent))
            else if NameUsed(rows, name, parent, ws, kind, None) then d == Done(rows, Err(Duplicate))
            else
              var row := Row(id, ws, parent, name, kind, icon, order, None, None);
              d == Done(rows[id := row], Ok(row))
  {
    hide Trim, NonEmpty, IsTaken, NameUsed;
    NameUsedExactly(rows, Trim(input.name), NonEmpty(input.parent), ws, None, kind);
  }

  /** The checks of an edit, in order; what an accepted one changes is said by `Categories.UpdateChanges`. */
  lemma UpdateDecided(rows: Table, id: string, input: Input, ws: string)
    requires Forest(rows)
    ensures var d := Update(rows, id, input, ws);
            var name, icon, parent := Trim(input.name), NonEmpty(input.icon), NonEmpty(input.parent);
            && (d.answer.Err? ==> d.rows == rows)
            && (d.answer.Ok? ==> id in d.rows && d.rows == rows[id := d.answer.value])
            && (if id !in rows || rows[id].workspace != ws || rows[id].deletedAt.Some? then d.answer == Err(NotFound)
                else if name == "" || |name| > 100 then d.answer == Err(NameLength)
                else if icon.Some? && |icon.value| > 32 then d.answer == Err(IconLength)
                else if parent.Some? && exists k :: k in rows && rows[k].parent == Some(id) then d.answer == Err(HasChildren)
                else if !ParentFits(rows, parent, ws, rows[id].kind, Some(id)) then d.answer == Err(BadParent)
                else if NameUsed(rows, name, parent, ws, rows[id].kind, Some(id)) then d.answer == Err(Duplicate)
                else d.answer.Ok?)
  {
    hide Trim, NonEmpty, IsTaken, NameUsed;
    if id in rows {
      NameUsedExactly(rows, Trim(input.name), NonEmpty(input.parent), ws, Some(id), rows[id].kind);
    }
  }

  /** A new order is accepted for different active siblings, and then the listed ones stand in that order and nothing else changes. */
  lemma ReorderDecided(rows: Table, ids: seq<string>, ws: string)
    ensures var d := Reorder(rows, ids, ws);
            if ids == [] || exists i, j :: 0 <= i < j < |ids| && ids[i] == ids[j] then d == Done(rows, Err(IdsNotUnique))
            else if (exists i :: 0 <= i < |ids| && (ids[i] !in rows || rows[ids[i]].workspace != ws || rows[ids[i]].deletedAt.Some?))
                    || (exists i, j :: 0 <= i < j < |ids| && ids[i] in rows && ids[j] in rows && rows[ids[i]].parent != rows[ids[j]].parent) then
              d == Done(rows, Err(NotSiblings))
            else
              && d.answer.Ok? && d.rows.Keys == rows.Keys
              && (forall i :: 0 <= i < |ids| ==> d.rows[ids[i]] == rows[ids[i]].(sortOrder := i + 1))
              && (forall k :: k in rows && k !in ids ==> d.rows[k] == rows[k])
  {
    hide Renumbered;
    if NoRepeat(ids) {
      RenumberedRows(rows, ids);
    }
  }

  /** Archiving takes an active category with all its children; the rest of the table stays. */
  lemma ArchiveDecided(rows: Table, id: string, ws: string, at: int)
    requires Forest(rows)
    ensures var d := Archive(rows, id, ws, at);
            if id !in rows || rows[id].workspace != ws || rows[id].deletedAt.Some? then d == Done(rows, Err(NotFound))
            else
              && d.answer == Ok(rows[id].(deletedAt := Some(at))) && d.rows.Keys == rows.Keys
              && (forall k :: k in rows && (k == id || rows[k].parent == Some(id)) ==> d.rows[k] == rows[k].(deletedAt := Some(at)))
              && (forall k :: k in rows && k != id && rows[k].parent != Some(id) ==> d.rows[k] == rows[k])
  {
    forall k | k in rows && rows[k].parent == Some(id) ensures id in rows && rows[k].workspace == rows[id].workspace {
      assert ChildOk(rows, rows[k]);
    }
  }

  /** Restoring brings back an archived category with all its children, if it has a place to return to and its name is free. */
  lemma RestoreDecided(rows: Table, id: string, ws: string)
    requires Forest(rows)
    ensures var d := Restore(rows, id, ws);
            if id !in rows || rows[id].workspace != ws || rows[id].deletedAt.None? then d == Done(rows, Err(NotFound))
            else if rows[id].parent.Some? && rows[rows[id].parent.value].deletedAt.Some? then d == Done(rows, Err(BadParent))
            else if NameUsed(rows, rows[id].name, rows[id].parent, ws, rows[id].kind, Some(id)) then d == Done(rows, Err(Duplicate))
            else
              && d.answer == Ok(rows[id].(deletedAt := None)) && d.rows.Keys == rows.Keys
              && (forall k :: k in rows && (k == id || rows[k].parent == Some(id)) ==> d.rows[k] == rows[k].(deletedAt := None))
              && (forall k :: k in rows && k != id && rows[k].parent != Some(id) ==> d.rows[k] == rows[k])
  {
    hide IsTaken, NameUsed;
    forall k | k in rows && rows[k].parent == Some(id) ensures id in rows && rows[k].workspace == rows[id].workspace {
      assert ChildOk(rows, rows[k]);
    }
    if id in rows {
      assert ChildOk(rows, rows[id]);
      NameUsedExactly(rows, rows[id].name, rows[id].parent, ws, Some(id), rows[id].kind);
    }
  }

  /** A created category takes the place after every active one of its group: the next number, 1 in an empty group. */
  lemma CreatedLast(rows: Table, id: string, input: Input, kind: Kind, ws: string, order: int)
    requires IsNextOrder(rows, ActiveGroup(rows, NonEmpty(input.parent), ws, kind), order)
    ensures var answer := Create(rows, id, input, kind, ws, order).answer;
            answer.Ok? ==>
              var row := answer.value;
              && (forall k :: k in rows && InGroup(rows[k], ws, row.parent, kind) ==> rows[k].sortOrder < row.sortOrder)
              && (row.sortOrder == 1 || exists k :: k in rows && InGroup(rows[k], ws, row.parent, kind) && rows[k].sortOrder == row.sortOrder - 1)
  {
    hide IsTaken, Trim, NonEmpty;
    var group := ActiveGroup(rows, NonEmpty(input.parent), ws, kind);
    if k :| k in group && rows[k].sortOrder == order - 1 {
      assert InGroup(rows[k], ws, NonEmpty(input.parent), kind);
    }
    forall k | k in rows && InGroup(rows[k], ws, NonEmpty(input.parent), kind) ensures rows[k].sortOrder < order {
      assert k in group;
    }
  }
}
