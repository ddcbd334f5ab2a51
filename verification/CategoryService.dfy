/** The category calls on the table itself, statement by statement. */
module CategoryService {
  import opened Wrappers
  import opened Text
  import opened Sorting
  import opened Categories
  import opened CategoryTree

  class Store {
    var rows: Table

    constructor ()
      ensures rows == map[] && Forest(rows)
    {
      rows := map[];
    }

    /** `MAX(sort_order)` of the active group, plus one. */
    method NextOrder(parent: Option<string>, ws: string, kind: Kind) returns (order: int)
      ensures IsNextOrder(rows, ActiveGroup(rows, parent, ws, kind), order)
    {
      var group := ActiveGroup(rows, parent, ws, kind);
      if group == {} {
        return 1;
      }
      var rest := group;
      var first :| first in rest;
      var best := rows[first].sortOrder;
      rest := rest - {first};
      while rest != {}
        invariant rest <= group
        invariant exists k :: k in group && rows[k].sortOrder == best
        invariant forall k :: k in group - rest ==> rows[k].sortOrder <= best
        decreases |rest|
      {
        var k :| k in rest;
        if rows[k].sortOrder > best {
          best := rows[k].sortOrder;
        }
        rest := rest - {k};
      }
      return best + 1;
    }

    method CreateCategory(id: string, input: Input, kind: Kind, ws: string) returns (r: Result<Row, Refusal>)
      requires id !in rows
      modifies this
      ensures exists order :: IsNextOrder(old(rows), ActiveGroup(old(rows), NonEmpty(input.parent), ws, kind), order)
                              && rows == Create(old(rows), id, input, kind, ws, order).rows
                              && r == Create(old(rows), id, input, kind, ws, order).answer
      ensures old(Forest(rows)) ==> Forest(rows)
    {
      var order := NextOrder(NonEmpty(input.parent), ws, kind);
      if old(Forest(rows)) {
        CreateKeeps(rows, id, input, kind, ws, order);
      }
      var v := Validate(input);
      if v.Err? {
        return Err(v.error);
      }
      if v.value.parent.Some? && !IsActiveParent(rows, v.value.parent.value, ws, None, Some(kind)) {
        return Err(BadParent);
      }
      if IsTaken(rows, v.value.name, v.value.parent, ws, None, kind) {
        return Err(Duplicate);
      }
      var row := Row(id, ws, v.value.parent, v.value.name, kind, v.value.icon, order, None, None);
      rows := rows[id := row];
      return Ok(row);
    }

    method UpdateCategory(id: string, input: Input, ws: string) returns (r: Result<Row, Refusal>)
      modifies this
      ensures rows == Update(old(rows), id, input, ws).rows && r == Update(old(rows), id, input, ws).answer
      ensures old(Forest(rows)) ==> Forest(rows)
    {
      if old(Forest(rows)) {
        UpdateKeeps(rows, id, input, ws);
      }
      if id !in rows || rows[id].workspace != ws || rows[id].deletedAt.Some? {
        return Err(NotFound);
      }
      var existing := rows[id];
      var v := Validate(input);
      if v.Err? {
        return Err(v.error);
      }
      if HasChildRows(rows, id) && v.value.parent.Some? {
        return Err(HasChildren);
      }
      if v.value.parent.Some? && !IsActiveParent(rows, v.value.parent.value, ws, Some(id), Some(existing.kind)) {
        return Err(BadParent);
      }
      if IsTaken(rows, v.value.name, v.value.parent, ws, Some(id), existing.kind) {
        return Err(Duplicate);
      }
      var row := existing.(name := v.value.name, icon := v.value.icon, parent := v.value.parent);
      if v.value.name != existing.name {
        row := row.(systemKey := None);
      }
      rows := rows[id := row];
      return Ok(row);
    }

    /** One update per listed id, in a loop. */
    method ReorderCategories(ids: seq<string>, ws: string) returns (r: Result<(), Refusal>)
      modifies this
      ensures rows == Reorder(old(rows), ids, ws).rows && r == Reorder(old(rows), ids, ws).answer
      ensures old(Forest(rows)) ==> Forest(rows)
    {
      ghost var before := rows;
      if old(Forest(rows)) {
        ReorderKeeps(rows, ids, ws);
      }
      if ids == [] || !NoRepeat(ids) {
        return Err(IdsNotUnique);
      }
      if !AreActiveSiblings(rows, ids, ws) {
        return Err(NotSiblings);
      }
      var i := 0;
      while i < |ids|
        invariant 0 <= i <= |ids|
        invariant rows == Renumbered(before, ids[..i])
      {
        assert ids[..i + 1][..i] == ids[..i];
        if ids[i] in rows {
          rows := rows[ids[i] := rows[ids[i]].(sortOrder := i + 1)];
        }
        i := i + 1;
      }
      assert ids[..i] == ids;
      return Ok(());
    }

    method ArchiveCategory(id: string, ws: string, at: int) returns (r: Result<Row, Refusal>)
      modifies this
      ensures rows == Archive(old(rows), id, ws, at).rows && r == Archive(old(rows), id, ws, at).answer
      ensures old(Forest(rows)) ==> Forest(rows)
    {
      if old(Forest(rows)) {
        ArchiveKeeps(rows, id, ws, at);
      }
      if id !in rows || rows[id].workspace != ws || rows[id].deletedAt.Some? {
        return Err(NotFound);
      }
      var row := rows[id];
      rows := Stamped(rows, id, ws, Some(at));
      return Ok(row.(deletedAt := Some(at)));
    }

    method RestoreCategory(id: string, ws: string) returns (r: Result<Row, Refusal>)
      modifies this
      ensures rows == Restore(old(rows), id, ws).rows && r == Restore(old(rows), id, ws).answer
      ensures old(Forest(rows)) ==> Forest(rows)
    {
      if old(Forest(rows)) {
        RestoreKeeps(rows, id, ws);
      }
      if id !in rows || rows[id].workspace != ws || rows[id].deletedAt.None? {
        return Err(NotFound);
      }
      var row := rows[id];
      if row.parent.Some? && !IsActiveParent(rows, row.parent.value, ws, None, None) {
        return Err(BadParent);
      }
      if IsTaken(rows, row.name, row.parent, ws, Some(id), row.kind) {
        return Err(Duplicate);
      }
      rows := Stamped(rows, id, ws, None);
      return Ok(row.(deletedAt := None));
    }

    /** The rows a query asks for, each once, in whatever order the database returns them. */
    method FindMany(q: Query) returns (listed: seq<Row>)
      requires Forest(rows)
      ensures IsListing(listed, rows, q)
    {
      var rest := set k | k in rows && Matches(rows[k], q);
      ghost var all := rest;
      listed := [];
      while rest != {}
        invariant rest <= all
        invariant forall i :: 0 <= i < |listed| ==> listed[i].id in all - rest && rows[listed[i].id] == listed[i]
        invariant forall k :: k in all - rest ==> rows[k] in listed
        invariant Distinct(listed)
        decreases |rest|
      {
        var k :| k in rest;
        listed := listed + [rows[k]];
        rest := rest - {k};
      }
    }

    /** On every forest the recursion ends, and the result lists each asked-for row once. */
    method Hierarchy(q: Query) returns (tree: seq<Node>)
      requires Forest(rows)
      ensures IsHierarchy(tree, rows, q)
      ensures Distinct(Flatten(tree)) && forall k :: k in Flatten(tree) <==> k in rows && Matches(rows[k], q)
    {
      hide IsHierarchy, Flatten, IsListing, Forest, Matches, Group, Under;
      var listed := FindMany(q);
      var groups := GroupByParent(listed);
      BuiltHierarchy(groups, listed, rows, q);
      tree := Build(groups, None);
      ListedExactlyOnce(tree, rows, q);
    }

    method GetCategoryById(id: string, q: Query) returns (found: Option<Node>)
      requires Forest(rows)
      ensures found.Some? <==> id in rows && Matches(rows[id], q)
      ensures found.Some? ==> found.value.row.id == id
    {
      var tree := Hierarchy(q);
      found := FindCategory(tree, id);
      FoundExactly(tree, rows, q, id);
      FindInFlatten(tree, id);
    }
  }
}
