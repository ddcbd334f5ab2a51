/**
 The workspace row as a readers-writers lock: financial writers hold it shared from reading the base currency to
 their commit, a settings change holds it exclusively while it counts the workspace's financial rows.
 Reads see committed rows; a transaction's own writes become visible when it commits.
 */
module CurrencyLock {
  import opened Wrappers

  datatype ItemKind = TransactionItem | BudgetItem | GoalItem

  /** A transaction, budget or goal, with the base currency its amounts were converted to. */
  datatype Item = Item(kind: ItemKind, workspace: string, base: string)

  // A writer: has the shared lock and the base it read; then also a row it will insert or rewrite.
  // A changer: has the exclusive lock; then also base and lock flag as counted; then a decided new base.
  datatype Tx =
    | Writer(workspace: string)
    | WriterLocked(workspace: string, base: string)
    | WriterWrote(workspace: string, id: string, item: Item, isInsert: bool)
    | Changer(workspace: string, wanted: Option<string>)
    | ChangerLocked(workspace: string, wanted: Option<string>)
    | ChangerRead(workspace: string, wanted: Option<string>, base: string, locked: bool)
    | ChangerDecided(workspace: string, wanted: Option<string>, base: string)

  datatype State = State(bases: map<string, string>, items: map<string, Item>, txs: map<nat, Tx>)

  predicate HoldsShared(t: Tx, ws: string) {
    (t.WriterLocked? || t.WriterWrote?) && t.workspace == ws
  }

  predicate HoldsExclusive(t: Tx, ws: string) {
    (t.ChangerLocked? || t.ChangerRead? || t.ChangerDecided?) && t.workspace == ws
  }

  /** Whether the workspace counts a transaction (deleted or not), a budget or a goal. */
  predicate HasItems(items: map<string, Item>, ws: string) {
    exists id :: id in items && items[id].workspace == ws
  }

  datatype SettingsError = CurrencyLocked | WorkspaceNotFound

  /** The settings decision: a different base is refused as soon as anything financial exists. */
  function DecideBase(base: string, locked: bool, wanted: Option<string>): Result<string, SettingsError> {
    if wanted.Some? && wanted.value != base && locked then Err(CurrencyLocked)
    else Ok(if wanted.Some? then wanted.value else base)
  }

  datatype Step =
    | BeginWrite(tid: nat, workspace: string)
    | TakeShared(tid: nat)
    | Write(tid: nat, id: string, kind: ItemKind)          // an insert, or a rewrite of an existing row
    | BeginChange(tid: nat, workspace: string, wanted: Option<string>)
    | TakeExclusive(tid: nat)
    | ReadCounts(tid: nat)
    | Decide(tid: nat)
    | Commit(tid: nat)
    | Abort(tid: nat)
    | Remove(id: string)                                    // a budget or a goal is deleted for good
    | NewWorkspace(workspace: string, base: string)

  ghost predicate Enabled(s: State, a: Step) {
    match a
    case BeginWrite(tid, _) => tid !in s.txs
    case TakeShared(tid) =>
      tid in s.txs && s.txs[tid].Writer?
      && forall o :: o in s.txs && o != tid ==> !HoldsExclusive(s.txs[o], s.txs[tid].workspace)
    case Write(tid, id, _) =>
      tid in s.txs && s.txs[tid].WriterLocked? && (id in s.items ==> s.items[id].workspace == s.txs[tid].workspace)
    case BeginChange(tid, _, _) => tid !in s.txs
    case TakeExclusive(tid) =>
      tid in s.txs && s.txs[tid].Changer?
      && forall o :: o in s.txs && o != tid ==>
           !HoldsExclusive(s.txs[o], s.txs[tid].workspace) && !HoldsShared(s.txs[o], s.txs[tid].workspace)
    case ReadCounts(tid) => tid in s.txs && s.txs[tid].ChangerLocked?
    case Decide(tid) => tid in s.txs && s.txs[tid].ChangerRead?
    case Commit(tid) => tid in s.txs && (s.txs[tid].WriterWrote? || s.txs[tid].ChangerDecided?)
    case Abort(tid) => tid in s.txs
    case Remove(id) => id in s.items && !s.items[id].kind.TransactionItem?
    case NewWorkspace(ws, _) => ws !in s.bases
  }

  function Put(s: State, tid: nat, t: Tx): State {
    s.(txs := s.txs[tid := t])
  }

  function Drop(s: State, tid: nat): State {
    s.(txs := s.txs - {tid})
  }

  /** An insert needs an unused id; a rewrite needs its row, still there, in its workspace. */
  predicate CanWrite(items: map<string, Item>, t: Tx)
    requires t.WriterWrote?
  {
    if t.isInsert then t.id !in items else t.id in items && items[t.id].workspace == t.workspace
  }

  ghost function Next(s: State, a: Step): State {
    if !Enabled(s, a) then s
    else
      match a
      case BeginWrite(tid, ws) => Put(s, tid, Writer(ws))
      case TakeShared(tid) =>
        var ws := s.txs[tid].workspace;
        if ws in s.bases then Put(s, tid, WriterLocked(ws, s.bases[ws])) else Drop(s, tid)
      case Write(tid, id, kind) =>
        var t := s.txs[tid];
        Put(s, tid, WriterWrote(t.workspace, id, Item(kind, t.workspace, t.base), id !in s.items))
      case BeginChange(tid, ws, wanted) => Put(s, tid, Changer(ws, wanted))
      case TakeExclusive(tid) => Put(s, tid, ChangerLocked(s.txs[tid].workspace, s.txs[tid].wanted))
      case ReadCounts(tid) =>
        var t := s.txs[tid];
        if t.workspace in s.bases then
          Put(s, tid, ChangerRead(t.workspace, t.wanted, s.bases[t.workspace], HasItems(s.items, t.workspace)))
        else Drop(s, tid)
      case Decide(tid) =>
        var t := s.txs[tid];
        (match DecideBase(t.base, t.locked, t.wanted)
         case Err(_) => Drop(s, tid)
         case Ok(base) => Put(s, tid, ChangerDecided(t.workspace, t.wanted, base)))
      case Commit(tid) =>
        var t := s.txs[tid];
        if t.ChangerDecided? then Drop(s, tid).(bases := s.bases[t.workspace := t.base])
        else if CanWrite(s.items, t) then Drop(s, tid).(items := s.items[t.id := t.item])
        else Drop(s, tid)                                   // the id was taken, or the row to rewrite is gone
      case Abort(tid) => Drop(s, tid)
      case Remove(id) => s.(items := s.items - {id})
      case NewWorkspace(ws, base) => s.(bases := s.bases[ws := base])
  }

  ghost function Run(s: State, steps: seq<Step>): State
    decreases |steps|
  {
    if steps == [] then s else Next(Run(s, steps[..|steps| - 1]), steps[|steps| - 1])
  }

  const EMPTY := State(map[], map[], map[])

  // ----- the invariant -----

  /** Each existing row was written under the workspace's current base currency. */
  ghost predicate CurrencyStable(s: State) {
    forall id :: id in s.items ==> s.items[id].workspace in s.bases && s.items[id].base == s.bases[s.items[id].workspace]
  }

  ghost predicate TxSound(s: State, t: Tx) {
    match t
    case Writer(_) => true
    case WriterLocked(ws, base) => ws in s.bases && s.bases[ws] == base
    case WriterWrote(ws, id, item, _) =>
      ws in s.bases && item.workspace == ws && item.base == s.bases[ws]
    case Changer(_, _) => true
    case ChangerLocked(_, _) => true
    case ChangerRead(ws, _, base, locked) => ws in s.bases && s.bases[ws] == base && (!locked ==> !HasItems(s.items, ws))
    case ChangerDecided(ws, wanted, base) =>
      && ws in s.bases && (base == s.bases[ws] || !HasItems(s.items, ws))
      && (if wanted.Some? then base == wanted.value else base == s.bases[ws])
  }

  /** A workspace has one exclusive holder and nobody else, or any number of shared holders. */
  ghost predicate LocksExclude(s: State) {
    forall i, j {:trigger s.txs[i], s.txs[j]} :: i in s.txs && j in s.txs && i != j ==>
      forall ws :: HoldsExclusive(s.txs[i], ws) ==> !HoldsExclusive(s.txs[j], ws) && !HoldsShared(s.txs[j], ws)
  }

  ghost predicate Invariant(s: State) {
    && CurrencyStable(s)
    && LocksExclude(s)
    && (forall i :: i in s.txs ==> TxSound(s, s.txs[i]))
  }

  /** A transaction takes its next place: sound, and compatible with the other lock holders. */
  lemma PutKeeps(s: State, tid: nat, t: Tx)
    requires Invariant(s) && TxSound(s, t)
    requires forall o, ws :: o in s.txs && o != tid && (HoldsExclusive(t, ws) || (HoldsShared(t, ws) && HoldsExclusive(s.txs[o], ws)))
                             ==> !HoldsExclusive(s.txs[o], ws) && !HoldsShared(s.txs[o], ws)
    ensures Invariant(Put(s, tid, t))
  {
    hide HasItems;
    var n := Put(s, tid, t);
    forall i | i in n.txs ensures TxSound(n, n.txs[i]) {
      assert i != tid ==> TxSound(s, s.txs[i]);
    }
  }

  lemma DropKeeps(s: State, tid: nat)
    requires Invariant(s)
    ensures Invariant(Drop(s, tid))
  {
    hide HasItems;
    var n := Drop(s, tid);
    forall i | i in n.txs ensures TxSound(n, n.txs[i]) {
      assert TxSound(s, s.txs[i]);
    }
  }

  /** A writer holding the shared lock commits: no exclusive holder is looking at that workspace. */
  lemma WriteCommitKeeps(s: State, tid: nat)
    requires Invariant(s) && tid in s.txs && s.txs[tid].WriterWrote? && CanWrite(s.items, s.txs[tid])
    ensures Invariant(Drop(s, tid).(items := s.items[s.txs[tid].id := s.txs[tid].item]))
  {
    var t := s.txs[tid];
    assert TxSound(s, t);
    var n := Drop(s, tid).(items := s.items[t.id := t.item]);
    forall i | i in n.txs ensures TxSound(n, n.txs[i]) {
      assert TxSound(s, s.txs[i]);
      var x := s.txs[i];
      if x.ChangerRead? || x.ChangerDecided? {
        assert HoldsShared(t, t.workspace) && HoldsExclusive(x, x.workspace);
        assert HasItems(n.items, x.workspace) ==> HasItems(s.items, x.workspace);
      }
    }
  }

  /** A change commits only under its exclusive lock: no writer holds the old base. */
  lemma ChangeCommitKeeps(s: State, tid: nat)
    requires Invariant(s) && tid in s.txs && s.txs[tid].ChangerDecided?
    ensures Invariant(Drop(s, tid).(bases := s.bases[s.txs[tid].workspace := s.txs[tid].base]))
  {
    var t := s.txs[tid];
    assert TxSound(s, t) && HoldsExclusive(t, t.workspace);
    var n := Drop(s, tid).(bases := s.bases[t.workspace := t.base]);
    forall i | i in n.txs ensures TxSound(n, n.txs[i]) {
      assert TxSound(s, s.txs[i]);
      assert !HoldsShared(s.txs[i], t.workspace) && !HoldsExclusive(s.txs[i], t.workspace);
    }
  }

  lemma RemoveKeeps(s: State, id: string)
    requires Invariant(s)
    ensures Invariant(s.(items := s.items - {id}))
  {
    var n := s.(items := s.items - {id});
    forall i | i in n.txs ensures TxSound(n, n.txs[i]) {
      assert TxSound(s, s.txs[i]);
      forall ws | HasItems(n.items, ws) ensures HasItems(s.items, ws) {}
    }
  }

  lemma NewWorkspaceKeeps(s: State, ws: string, base: string)
    requires Invariant(s) && ws !in s.bases
    ensures Invariant(s.(bases := s.bases[ws := base]))
  {
    hide HasItems;
    var n := s.(bases := s.bases[ws := base]);
    forall i | i in n.txs ensures TxSound(n, n.txs[i]) {
      assert TxSound(s, s.txs[i]);
    }
  }

  lemma NextKeeps(s: State, a: Step)
    requires Invariant(s)
    ensures Invariant(Next(s, a))
  {
    hide HasItems, LocksExclude, CurrencyStable;
    if Enabled(s, a) {
      match a
      case BeginWrite(tid, ws) => PutKeeps(s, tid, Writer(ws));
      case BeginChange(tid, ws, wanted) => PutKeeps(s, tid, Changer(ws, wanted));
      case Remove(id) => RemoveKeeps(s, id);
      case NewWorkspace(ws, base) => NewWorkspaceKeeps(s, ws, base);
      case Abort(tid) => DropKeeps(s, tid);
      case Commit(tid) =>
        DropKeeps(s, tid);
        if s.txs[tid].ChangerDecided? { ChangeCommitKeeps(s, tid); }
        else if CanWrite(s.items, s.txs[tid]) { WriteCommitKeeps(s, tid); }
      case _ => AdvanceKeeps(s, a);
    }
  }

  lemma AdvanceKeeps(s: State, a: Step)
    requires Invariant(s) && Enabled(s, a)
    requires a.TakeShared? || a.Write? || a.TakeExclusive? || a.ReadCounts? || a.Decide?
    ensures Invariant(Next(s, a))
  {
    hide HasItems, CurrencyStable;
    var tid := a.tid;
    assert TxSound(s, s.txs[tid]);
    DropKeeps(s, tid);
    var n := Next(s, a);
    if n != Drop(s, tid) {
      assert n == Put(s, tid, n.txs[tid]);
      PutKeeps(s, tid, n.txs[tid]);
    }
  }

  lemma {:induction false} RunKeeps(s: State, steps: seq<Step>)
    requires Invariant(s)
    ensures Invariant(Run(s, steps))
    decreases |steps|
  {
    if steps != [] {
      RunKeeps(s, steps[..|steps| - 1]);
      NextKeeps(Run(s, steps[..|steps| - 1]), steps[|steps| - 1]);
    }
  }

  // ----- results -----

  /** In every interleaving, every existing transaction, budget and goal agrees with its workspace's base currency. */
  lemma EveryRunCurrencyStable(steps: seq<Step>)
    ensures CurrencyStable(Run(EMPTY, steps))
  {
    RunKeeps(EMPTY, steps);
  }

  /** A step that changes a workspace's base is a committed settings change, and the workspace is then empty. */
  lemma BaseMovesOnlyWhenEmpty(steps: seq<Step>, a: Step, ws: string)
    ensures var s := Run(EMPTY, steps);
            var t := Next(s, a);
            ws in s.bases ==> ws in t.bases && (t.bases[ws] != s.bases[ws] ==> a.Commit? && !HasItems(t.items, ws))
  {
    hide HasItems;
    RunKeeps(EMPTY, steps);
    var s := Run(EMPTY, steps);
    if Enabled(s, a) && a.Commit? {
      assert TxSound(s, s.txs[a.tid]);
    }
  }

  /** Under the exclusive lock a count of nothing stays right until the decision: nothing financial can appear meanwhile. */
  lemma CountStaysRight(steps: seq<Step>, tid: nat)
    ensures var s := Run(EMPTY, steps);
            tid in s.txs && s.txs[tid].ChangerRead? && !s.txs[tid].locked ==> !HasItems(s.items, s.txs[tid].workspace)
  {
    RunKeeps(EMPTY, steps);
    var s := Run(EMPTY, steps);
    if tid in s.txs {
      assert TxSound(s, s.txs[tid]);
    }
  }

  /** A change that commits moves its workspace to the currency asked for, nobody else's, and no item. */
  lemma ChangeTakesEffect(steps: seq<Step>, tid: nat)
    ensures var s := Run(EMPTY, steps);
            tid in s.txs && s.txs[tid].ChangerDecided? ==>
              var t := s.txs[tid];
              && t.workspace in s.bases
              && Next(s, Commit(tid)).bases == s.bases[t.workspace := if t.wanted.Some? then t.wanted.value else s.bases[t.workspace]]
              && Next(s, Commit(tid)).items == s.items
  {
    hide HasItems, LocksExclude, CurrencyStable;
    RunKeeps(EMPTY, steps);
    var s := Run(EMPTY, steps);
    if tid in s.txs {
      assert TxSound(s, s.txs[tid]);
    }
  }

  /**
   A change that holds the exclusive lock and runs through: it is dropped when the workspace is missing, or when it asks
   for another currency while anything financial exists; in every other case it ends with the currency asked for.
   */
  lemma ChangeDecidedExactly(s: State, tid: nat)
    requires tid in s.txs && s.txs[tid].ChangerLocked?
    ensures var ws, wanted := s.txs[tid].workspace, s.txs[tid].wanted;
            Next(Next(Next(s, ReadCounts(tid)), Decide(tid)), Commit(tid))
            == if ws !in s.bases || (wanted.Some? && wanted.value != s.bases[ws] && HasItems(s.items, ws)) then Drop(s, tid)
               else Drop(s, tid).(bases := s.bases[ws := if wanted.Some? then wanted.value else s.bases[ws]])
  {
    hide HasItems;
    var ws, wanted := s.txs[tid].workspace, s.txs[tid].wanted;
    var read := Next(s, ReadCounts(tid));
    var decided := Next(read, Decide(tid));
    if ws in s.bases {
      var locked := HasItems(s.items, ws);
      assert read == Put(s, tid, ChangerRead(ws, wanted, s.bases[ws], locked));
      if wanted.Some? && wanted.value != s.bases[ws] && locked {
        assert decided == Drop(s, tid);
      } else {
        assert decided == Put(s, tid, ChangerDecided(ws, wanted, if wanted.Some? then wanted.value else s.bases[ws]));
        assert Next(decided, Commit(tid)).txs == s.txs - {tid};
      }
    }
  }
}
