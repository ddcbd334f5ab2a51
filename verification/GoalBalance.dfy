/**
 Goal balances under interleaved calls. Edits and operations run serializable: each decides on a snapshot and commits
 only if no other such write of its goal committed since. Archiving, restoring and deleting a goal run outside that
 regime, as one statement on the goal row; only an edit, which writes the same row, notices them.
 */
module GoalBalance {
  import opened Wrappers
  import opened Calendar
  import opened GoalPlan

  datatype OperationKind = Deposit | Withdrawal

  datatype Operation = Operation(id: string, kind: OperationKind, amount: nat, date: Date)

  datatype Goal = Goal(target: int, initial: int, targetDate: Date, archived: bool, operations: seq<Operation>)

  datatype Refusal = GoalNotFound | GoalArchived | OperationNotFound | NegativeBalance | BadDate | SerializationConflict

  /** Amounts are positive cents and dates already read against today; both come in with the request. */
  datatype Call =
    | Edit(target: Option<int>, initial: Option<nat>, targetDate: Option<Result<Date, DateError>>)
    | Add(id: string, kind: OperationKind, amount: nat, date: Result<Date, DateError>)
    | Change(id: string, kind: OperationKind, amount: nat, date: Result<Date, DateError>)
    | Remove(id: string)

  // ----- balances -----

  function SumOf(operations: seq<Operation>, kind: OperationKind): nat {
    if operations == [] then 0
    else SumOf(operations[..|operations| - 1], kind) + (if operations[|operations| - 1].kind == kind then operations[|operations| - 1].amount else 0)
  }

  function BalanceOf(operations: seq<Operation>, initial: int): int {
    initial + SumOf(operations, Deposit) - SumOf(operations, Withdrawal)
  }

  function Balance(g: Goal): int {
    BalanceOf(g.operations, g.initial)
  }

  function Signed(kind: OperationKind, amount: nat): int {
    if kind == Deposit then amount else 0 - amount
  }

  function Find(operations: seq<Operation>, id: string): Option<Operation> {
    if operations == [] then None
    else if operations[|operations| - 1].id == id then Some(operations[|operations| - 1])
    else Find(operations[..|operations| - 1], id)
  }

  function Without(operations: seq<Operation>, id: string): seq<Operation> {
    if operations == [] then []
    else
      var init := Without(operations[..|operations| - 1], id);
      if operations[|operations| - 1].id == id then init else init + [operations[|operations| - 1]]
  }

  function Replaced(operations: seq<Operation>, o: Operation): seq<Operation> {
    if operations == [] then []
    else Replaced(operations[..|operations| - 1], o) + [if operations[|operations| - 1].id == o.id then o else operations[|operations| - 1]]
  }

  predicate DistinctOperations(operations: seq<Operation>) {
    forall i, j :: 0 <= i < j < |operations| ==> operations[i].id != operations[j].id
  }

  // ----- the calls -----

  /** The check each call makes on the goal it read. */
  function Refused(g: Goal, c: Call): Option<Refusal> {
    if g.archived then Some(GoalArchived)
    else
      match c
      case Edit(_, initial, targetDate) =>
        if BalanceOf(g.operations, if initial.Some? then initial.value else g.initial) < 0 then Some(NegativeBalance)
        else if targetDate.Some? && targetDate.value.Err? then Some(BadDate) else None
      case Add(_, kind, amount, date) =>
        if date.Err? then Some(BadDate)
        else if kind == Withdrawal && Balance(g) - amount < 0 then Some(NegativeBalance) else None
      case Change(id, kind, amount, date) =>
        if Find(g.operations, id).None? then Some(OperationNotFound)
        else if BalanceOf(Without(g.operations, id), g.initial) + Signed(kind, amount) < 0 then Some(NegativeBalance)
        else if date.Err? then Some(BadDate) else None
      case Remove(id) =>
        if Find(g.operations, id).None? then Some(OperationNotFound)
        else if BalanceOf(Without(g.operations, id), g.initial) < 0 then Some(NegativeBalance) else None
  }

  /** The rows a call writes: the goal's own columns, or one operation. */
  function Written(g: Goal, c: Call): Goal {
    match c
    case Edit(target, initial, targetDate) =>
      g.(target := if target.Some? then target.value else g.target, initial := if initial.Some? then initial.value else g.initial,
         targetDate := if targetDate.Some? && targetDate.value.Ok? then targetDate.value.value else g.targetDate)
    case Add(id, kind, amount, date) =>
      if date.Ok? then g.(operations := g.operations + [Operation(id, kind, amount, date.value)]) else g
    case Change(id, kind, amount, date) =>
      if date.Ok? then g.(operations := Replaced(g.operations, Operation(id, kind, amount, date.value))) else g
    case Remove(id) => g.(operations := Without(g.operations, id))
  }

  /** What a call adds to the balance of the goal it read. */
  function Effect(g: Goal, c: Call): int {
    match c
    case Edit(_, initial, _) => (if initial.Some? then initial.value else g.initial) - g.initial
    case Add(_, kind, amount, _) => Signed(kind, amount)
    case Change(id, kind, amount, _) => Signed(kind, amount) - SignedFound(g.operations, id)
    case Remove(id) => -SignedFound(g.operations, id)
  }

  function SignedFound(operations: seq<Operation>, id: string): int {
    match Find(operations, id) case None => 0 case Some(o) => Signed(o.kind, o.amount)
  }

  // ----- what a call does to a balance -----

  lemma {:induction false} WithoutNone(operations: seq<Operation>, id: string)
    ensures Find(operations, id).None? ==> Without(operations, id) == operations
    ensures Find(operations, id).None? ==> forall o: Operation :: o.id == id ==> Replaced(operations, o) == operations
  {
    if operations != [] {
      WithoutNone(operations[..|operations| - 1], id);
    }
  }

  lemma {:induction false} FindNone(operations: seq<Operation>, id: string)
    requires forall i :: 0 <= i < |operations| ==> operations[i].id != id
    ensures Find(operations, id).None?
  {
    if operations != [] {
      FindNone(operations[..|operations| - 1], id);
    }
  }

  lemma {:induction false} NoneIsFresh(operations: seq<Operation>, id: string)
    requires Find(operations, id).None?
    ensures forall i :: 0 <= i < |operations| ==> operations[i].id != id
  {
    if operations != [] {
      NoneIsFresh(operations[..|operations| - 1], id);
    }
  }

  lemma BalanceSnoc(operations: seq<Operation>, o: Operation, initial: int)
    ensures BalanceOf(operations + [o], initial) == BalanceOf(operations, initial) + Signed(o.kind, o.amount)
  {
    assert (operations + [o])[..|operations|] == operations;
  }

  /** Taking an operation out, or putting another in its place, changes the balance by just that operation. */
  lemma {:induction false} OneOperation(operations: seq<Operation>, o: Operation, initial: int)
    requires DistinctOperations(operations) && Find(operations, o.id).Some?
    ensures BalanceOf(Without(operations, o.id), initial) == BalanceOf(operations, initial) - SignedFound(operations, o.id)
    ensures BalanceOf(Replaced(operations, o), initial) == BalanceOf(Without(operations, o.id), initial) + Signed(o.kind, o.amount)
  {
    hide BalanceOf, Signed;
    var init, last := operations[..|operations| - 1], operations[|operations| - 1];
    assert operations == init + [last];
    BalanceSnoc(init, last, initial);
    BalanceSnoc(Without(init, o.id), last, initial);
    BalanceSnoc(Replaced(init, o), last, initial);
    BalanceSnoc(Replaced(init, o), o, initial);
    if last.id == o.id {
      FindNone(init, o.id);
      WithoutNone(init, o.id);
    } else {
      OneOperation(init, o, initial);
    }
  }

  /** An accepted call leaves the balance changed by its effect, and not negative. */
  lemma CallBalance(g: Goal, c: Call)
    requires DistinctOperations(g.operations) && Balance(g) >= 0 && Refused(g, c).None?
    ensures Balance(Written(g, c)) == Balance(g) + Effect(g, c)
    ensures Balance(Written(g, c)) >= 0
  {
    match c
    case Edit(_, _, _) =>
    case Add(id, kind, amount, date) =>
      var o := Operation(id, kind, amount, date.value);
      assert (g.operations + [o])[..|g.operations|] == g.operations;
    case Change(id, kind, amount, date) => OneOperation(g.operations, Operation(id, kind, amount, date.value), g.initial);
    case Remove(id) => OneOperation(g.operations, Find(g.operations, id).value.(id := id), g.initial);
  }

  /** The operation a call is about is there. */
  predicate Present(g: Goal, c: Call) {
    c.Change? || c.Remove? ==> exists i :: 0 <= i < |g.operations| && g.operations[i].id == c.id
  }

  predicate DateAccepted(c: Call) {
    && (c.Add? || c.Change? ==> c.date.Ok?)
    && (c.Edit? && c.targetDate.Some? ==> c.targetDate.value.Ok?)
  }

  /**
   When a call is refused, and how: an archived goal, an operation that is not there, a new operation's bad date, a balance
   that would be negative, the bad date of a changed operation or goal; in that order, and nothing else.
   */
  lemma RefusedExactly(g: Goal, c: Call)
    requires DistinctOperations(g.operations) && Balance(g) >= 0
    ensures Refused(g, c)
            == if g.archived then Some(GoalArchived)
               else if !Present(g, c) then Some(OperationNotFound)
               else if c.Add? && !DateAccepted(c) then Some(BadDate)
               else if Balance(g) + Effect(g, c) < 0 then Some(NegativeBalance)
               else if !DateAccepted(c) then Some(BadDate)
               else None
  {
    if c.Change? || c.Remove? {
      if Find(g.operations, c.id).None? {
        NoneIsFresh(g.operations, c.id);
      } else {
        FoundIsThere(g.operations, c.id);
        OneOperation(g.operations, Find(g.operations, c.id).value, g.initial);
      }
    }
  }

  lemma {:induction false} FoundIsThere(operations: seq<Operation>, id: string)
    requires Find(operations, id).Some?
    ensures Find(operations, id).value.id == id
    ensures exists i :: 0 <= i < |operations| && operations[i] == Find(operations, id).value
  {
    if operations[|operations| - 1].id != id {
      FoundIsThere(operations[..|operations| - 1], id);
      var i :| 0 <= i < |operations| - 1 && operations[..|operations| - 1][i] == Find(operations, id).value;
      assert operations[i] == Find(operations, id).value;
    }
  }

  /**
   What an accepted call writes: an edit only the columns it names, a new operation at the end, a changed operation in its
   place with every other one as it was, and a removal everything but the operation, in the same order.
   */
  lemma WrittenExactly(g: Goal, c: Call, k: nat)
    requires DistinctOperations(g.operations) && Refused(g, c).None?
    requires c.Change? || c.Remove? ==> k < |g.operations| && g.operations[k].id == c.id
    ensures var w := Written(g, c);
            match c
            case Edit(target, initial, targetDate) =>
              w == Goal(if target.Some? then target.value else g.target, if initial.Some? then initial.value else g.initial,
                        if targetDate.Some? then targetDate.value.value else g.targetDate, g.archived, g.operations)
            case Add(id, kind, amount, date) => w == g.(operations := g.operations + [Operation(id, kind, amount, date.value)])
            case Change(id, kind, amount, date) => w == g.(operations := g.operations[k := Operation(id, kind, amount, date.value)])
            case Remove(id) => w == g.(operations := g.operations[..k] + g.operations[k + 1..])
  {
    match c
    case Change(id, kind, amount, date) => ReplacedAt(g.operations, Operation(id, kind, amount, date.value), k);
    case Remove(id) => WithoutAt(g.operations, id, k);
    case _ =>
  }

  lemma {:induction false} ReplacedAt(operations: seq<Operation>, o: Operation, k: nat)
    requires DistinctOperations(operations) && k < |operations| && operations[k].id == o.id
    ensures Replaced(operations, o) == operations[k := o]
  {
    var init, last := operations[..|operations| - 1], operations[|operations| - 1];
    if k == |init| {
      FindNone(init, o.id);
      WithoutNone(init, o.id);
    } else {
      ReplacedAt(init, o, k);
    }
  }

  lemma {:induction false} WithoutAt(operations: seq<Operation>, id: string, k: nat)
    requires DistinctOperations(operations) && k < |operations| && operations[k].id == id
    ensures Without(operations, id) == operations[..k] + operations[k + 1..]
  {
    var init, last := operations[..|operations| - 1], operations[|operations| - 1];
    if k == |init| {
      FindNone(init, id);
      WithoutNone(init, id);
    } else {
      WithoutAt(init, id, k);
    }
  }

  lemma {:induction false} WithoutIds(operations: seq<Operation>, id: string)
    requires DistinctOperations(operations)
    ensures DistinctOperations(Without(operations, id))
    ensures forall i :: 0 <= i < |Without(operations, id)| ==> exists j :: 0 <= j < |operations| && operations[j] == Without(operations, id)[i]
  {
    if operations != [] {
      var init, last := operations[..|operations| - 1], operations[|operations| - 1];
      WithoutIds(init, id);
      var w := Without(operations, id);
      forall i | 0 <= i < |w| ensures exists j :: 0 <= j < |operations| && operations[j] == w[i] {
        if i < |Without(init, id)| {
          var j :| 0 <= j < |init| && init[j] == Without(init, id)[i];
          assert operations[j] == w[i];
        }
      }
    }
  }

  lemma {:induction false} ReplacedIds(operations: seq<Operation>, o: Operation)
    ensures |Replaced(operations, o)| == |operations|
    ensures forall i :: 0 <= i < |operations| ==> Replaced(operations, o)[i].id == operations[i].id
  {
    if operations != [] {
      ReplacedIds(operations[..|operations| - 1], o);
    }
  }

  // ----- interleaved calls -----

  datatype Tx = Tx(goal: string, call: Call, snapshot: Goal, seenWrites: nat, seenRow: nat)

  /** writes counts the committed serializable writes of a goal, rows the committed updates of its row. */
  datatype State = State(goals: map<string, Goal>, writes: map<string, nat>, rows: map<string, nat>, live: map<nat, Tx>)

  const EMPTY := State(map[], map[], map[], map[])

  datatype Step =
    | Create(goal: string, target: int, initial: nat, targetDate: Date)
    | Begin(tid: nat, goal: string, call: Call)
    | Commit(tid: nat)
    | Abort(tid: nat)
    | SetArchived(goal: string, archived: bool)
    | Delete(goal: string)

  /** Ids of goals and operations are fresh. */
  predicate Enabled(s: State, a: Step) {
    match a
    case Create(id, _, _, _) => id !in s.writes
    case Begin(tid, id, c) =>
      tid !in s.live && (c.Add? ==> forall k, i :: k in s.goals && 0 <= i < |s.goals[k].operations| ==> s.goals[k].operations[i].id != c.id)
    case Commit(tid) => tid in s.live
    case Abort(tid) => tid in s.live
    case SetArchived(id, _) => id in s.goals
    case Delete(id) => id in s.goals
  }

  function Count(m: map<string, nat>, k: string): nat {
    if k in m then m[k] else 0
  }

  /** The database lets a serializable transaction commit: its goal is there and nothing it read was rewritten by another. */
  predicate Commits(s: State, t: Tx) {
    t.goal in s.goals && Count(s.writes, t.goal) == t.seenWrites && (t.call.Edit? ==> Count(s.rows, t.goal) == t.seenRow)
  }

  function Next(s: State, a: Step): State {
    if !Enabled(s, a) then s
    else
      match a
      case Create(id, target, initial, targetDate) =>
        s.(goals := s.goals[id := Goal(target, initial, targetDate, false, [])], writes := s.writes[id := 0], rows := s.rows[id := 0])
      case Begin(tid, id, c) =>
        if id !in s.goals || Refused(s.goals[id], c).Some? then s
        else s.(live := s.live[tid := Tx(id, c, s.goals[id], Count(s.writes, id), Count(s.rows, id))])
      case Commit(tid) =>
        var t := s.live[tid];
        if !Commits(s, t) then s.(live := s.live - {tid})
        else s.(goals := s.goals[t.goal := Written(s.goals[t.goal], t.call)],
                writes := s.writes[t.goal := t.seenWrites + 1],
                rows := if t.call.Edit? then s.rows[t.goal := t.seenRow + 1] else s.rows,
                live := s.live - {tid})
      case Abort(tid) => s.(live := s.live - {tid})
      case SetArchived(id, archived) =>
        if s.goals[id].archived == archived then s
        else s.(goals := s.goals[id := s.goals[id].(archived := archived)], rows := s.rows[id := Count(s.rows, id) + 1])
      case Delete(id) => s.(goals := s.goals - {id})
  }

  function Run(s: State, steps: seq<Step>): State
    decreases |steps|
  {
    if steps == [] then s else Next(Run(s, steps[..|steps| - 1]), steps[|steps| - 1])
  }

  // ----- the invariant -----

  predicate GoalSound(g: Goal) {
    DistinctOperations(g.operations) && Balance(g) >= 0
  }

  predicate FreshFor(operations: seq<Operation>, c: Call) {
    c.Add? ==> forall i :: 0 <= i < |operations| ==> operations[i].id != c.id
  }

  /** What a live transaction read is still there, as far as its counters say so. */
  predicate TxSound(s: State, t: Tx) {
    && t.goal in s.writes && t.seenWrites <= Count(s.writes, t.goal) && t.seenRow <= Count(s.rows, t.goal)
    && Refused(t.snapshot, t.call).None? && FreshFor(t.snapshot.operations, t.call)
    && (t.goal in s.goals && Count(s.writes, t.goal) == t.seenWrites ==>
          s.goals[t.goal].operations == t.snapshot.operations && s.goals[t.goal].initial == t.snapshot.initial)
    && (t.goal in s.goals && Count(s.rows, t.goal) == t.seenRow ==> s.goals[t.goal].archived == t.snapshot.archived)
  }

  ghost predicate Invariant(s: State) {
    && (forall g :: g in s.goals ==> g in s.writes && GoalSound(s.goals[g]))
    && (forall t :: t in s.live ==> TxSound(s, s.live[t]))
  }

  lemma WrittenSound(g: Goal, snapshot: Goal, c: Call)
    requires GoalSound(g) && Refused(snapshot, c).None? && FreshFor(g.operations, c)
    requires g.operations == snapshot.operations && g.initial == snapshot.initial
    ensures GoalSound(Written(g, c)) && Balance(Written(g, c)) == Balance(g) + Effect(g, c)
  {
    hide Balance, BalanceOf, Effect;
    CallBalance(snapshot, c) by { SameBalance(g, snapshot, c); }
    SameBalance(g, snapshot, c);
    if c.Change? {
      ReplacedIds(g.operations, Operation(c.id, c.kind, c.amount, c.date.value));
    }
    if c.Remove? {
      WithoutIds(g.operations, c.id);
    }
  }

  lemma SameBalance(g: Goal, h: Goal, c: Call)
    requires g.operations == h.operations && g.initial == h.initial
    ensures Balance(g) == Balance(h) && Balance(Written(g, c)) == Balance(Written(h, c)) && Effect(g, c) == Effect(h, c)
  {
  }

  lemma CommitKeeps(s: State, a: Step)
    requires Invariant(s) && a.Commit? && Enabled(s, a)
    ensures Invariant(Next(s, a))
  {
    hide Refused, Written, GoalSound, FreshFor;
    var t := s.live[a.tid];
    var n := Next(s, a);
    assert TxSound(s, t);
    if Commits(s, t) {
      FreshSame(t.snapshot, s.goals[t.goal], t.call);
      WrittenSound(s.goals[t.goal], t.snapshot, t.call);
    }
    WrittenKeepsFlag(s, t);
    forall k | k in n.live ensures TxSound(n, n.live[k]) {
      assert TxSound(s, s.live[k]);
    }
  }

  lemma FreshSame(g: Goal, h: Goal, c: Call)
    requires g.operations == h.operations && FreshFor(g.operations, c)
    ensures FreshFor(h.operations, c)
  {
  }

  lemma WrittenKeepsFlag(s: State, t: Tx)
    ensures t.goal in s.goals ==> Written(s.goals[t.goal], t.call).archived == s.goals[t.goal].archived
  {
  }

  lemma BeginKeeps(s: State, a: Step)
    requires Invariant(s) && a.Begin? && Enabled(s, a)
    ensures Invariant(Next(s, a))
  {
    hide Refused, GoalSound;
    var n := Next(s, a);
    forall k | k in n.live ensures TxSound(n, n.live[k]) {
      assert k in s.live ==> TxSound(s, s.live[k]);
    }
  }

  lemma NextKeeps(s: State, a: Step)
    requires Invariant(s)
    ensures Invariant(Next(s, a))
  {
    if !Enabled(s, a) {
    } else if a.Commit? {
      CommitKeeps(s, a);
    } else if a.Begin? {
      BeginKeeps(s, a);
    } else {
      hide Refused, FreshFor;
      var n := Next(s, a);
      forall k | k in n.live ensures TxSound(n, n.live[k]) {
        assert TxSound(s, s.live[k]);
      }
      forall g | g in n.goals ensures g in n.writes && GoalSound(n.goals[g]) {
        assert g in s.goals ==> GoalSound(s.goals[g]);
      }
    }
  }

  lemma {:induction false} RunKeeps(s: State, steps: seq<Step>)
    requires Invariant(s)
    ensures Invariant(Run(s, steps))
    decreases |steps|
  {
    hide Invariant, Next;
    if steps != [] {
      RunKeeps(s, steps[..|steps| - 1]);
      NextKeeps(Run(s, steps[..|steps| - 1]), steps[|steps| - 1]);
    }
  }

  // ----- results -----

  function PlanOf(g: Goal, targetDate: Date, planStart: Date, today: Date): Plan
    requires IsDate(targetDate) && IsDate(planStart) && IsDate(today)
  {
    CalculateGoalPlan(PlanInput(g.target, g.initial, SumOf(g.operations, Deposit), SumOf(g.operations, Withdrawal), targetDate, planStart, today))
  }

  /** Over every interleaving no goal's balance is negative, and the plan shows exactly that balance. */
  lemma EveryBalanceStands(steps: seq<Step>, g: string, targetDate: Date, planStart: Date, today: Date)
    requires IsDate(targetDate) && IsDate(planStart) && IsDate(today)
    ensures var s := Run(EMPTY, steps);
            g in s.goals ==> Balance(s.goals[g]) >= 0 && PlanOf(s.goals[g], targetDate, planStart, today).current == Balance(s.goals[g])
  {
    RunKeeps(EMPTY, steps);
    assert GoalSound(Goal(0, 0, Date(2024, 1, 1), false, []));
  }

  /** A transaction that decided before the archiving and commits after it. */
  predicate LateOperation(s: State, a: Step, g: string) {
    a.Commit? && a.tid in s.live && s.live[a.tid].goal == g && Commits(s, s.live[a.tid]) && !s.live[a.tid].call.Edit?
    && !s.live[a.tid].snapshot.archived
  }

  /** The balance of an archived goal changes exactly when an operation that began before the archiving commits after it. */
  lemma ArchivedChangesExactly(steps: seq<Step>, a: Step, g: string)
    ensures var s := Run(EMPTY, steps);
            var t := Next(s, a);
            g in s.goals && s.goals[g].archived && g in t.goals ==>
              (Balance(t.goals[g]) != Balance(s.goals[g]) <==>
                 LateOperation(s, a, g) && Effect(s.goals[g], s.live[a.tid].call) != 0)
  {
    hide Balance, BalanceOf, Written, Effect, Run;
    RunKeeps(EMPTY, steps) by { EmptySound(); }
    var s := Run(EMPTY, steps);
    var t := Next(s, a);
    if g in s.goals && s.goals[g].archived && g in t.goals && a.Commit? && a.tid in s.live && s.live[a.tid].goal == g {
      var tx := s.live[a.tid];
      assert TxSound(s, tx);
      if Commits(s, tx) {
        FreshSame(tx.snapshot, s.goals[g], tx.call);
        WrittenSound(s.goals[g], tx.snapshot, tx.call);
      }
    }
    FlagOnly(s, g);
  }

  lemma EmptySound()
    ensures Invariant(EMPTY)
  {
  }

  lemma FlagOnly(s: State, g: string)
    ensures g in s.goals ==> forall b :: Balance(s.goals[g].(archived := b)) == Balance(s.goals[g])
  {
  }

  /** Nothing in flight when it was archived: then nothing changes its operations until it is restored or deleted. */
  lemma {:induction false} QuietArchiveStays(s: State, steps: seq<Step>, g: string)
    requires g in s.goals && s.goals[g].archived && g in s.writes
    requires forall t :: t in s.live ==> s.live[t].goal != g
    requires forall i :: 0 <= i < |steps| ==> steps[i] != SetArchived(g, false) && steps[i] != Delete(g)
    ensures var t := Run(s, steps);
            g in t.goals && t.goals[g] == s.goals[g] && g in t.writes && forall k :: k in t.live ==> t.live[k].goal != g
    decreases |steps|
  {
    hide Refused, Written;
    if steps != [] {
      var init, a := steps[..|steps| - 1], steps[|steps| - 1];
      QuietArchiveStays(s, init, g);
      var m := Run(s, init);
      ArchivedRefuses(m.goals[g]);
    }
  }

  lemma ArchivedRefuses(g: Goal)
    ensures g.archived ==> forall c :: Refused(g, c).Some?
  {
  }

  // A run in which an archived goal's balance changes.

  function Saved(): Call {
    Add("o", Deposit, 500, Ok(Date(2024, 1, 1)))
  }

  const NEXT_YEAR := Date(2025, 1, 1)

  const LATE_RUN: seq<Step> := [Create("g", 1000, 100, NEXT_YEAR), Begin(0, "g", Saved()), SetArchived("g", true)]

  lemma LateRunState()
    ensures var s := Run(EMPTY, LATE_RUN);
            && s.goals == map["g" := Goal(1000, 100, NEXT_YEAR, true, [])]
            && s.live == map[0 := Tx("g", Saved(), Goal(1000, 100, NEXT_YEAR, false, []), 0, 0)]
            && s.writes == map["g" := 0] && s.rows == map["g" := 1]
  {
    var p1, p2 := [Create("g", 1000, 100, NEXT_YEAR)], [Create("g", 1000, 100, NEXT_YEAR), Begin(0, "g", Saved())];
    assert LATE_RUN[..2] == p2 && p2[..1] == p1 && p1[..0] == [];
    var s1 := State(map["g" := Goal(1000, 100, NEXT_YEAR, false, [])], map["g" := 0], map["g" := 0], map[]);
    assert Run(EMPTY, p1) == s1;
    assert Run(EMPTY, p2) == s1.(live := map[0 := Tx("g", Saved(), Goal(1000, 100, NEXT_YEAR, false, []), 0, 0)]);
  }

  lemma ArchivedBalanceCanChange()
    ensures var s := Run(EMPTY, LATE_RUN);
            && "g" in s.goals && s.goals["g"].archived && Balance(s.goals["g"]) == 100
            && Next(s, Commit(0)).goals["g"].archived && Balance(Next(s, Commit(0)).goals["g"]) == 600
  {
    LateRunState();
    var s := Run(EMPTY, LATE_RUN);
    var o := Operation("o", Deposit, 500, Date(2024, 1, 1));
    assert Next(s, Commit(0)).goals["g"] == Goal(1000, 100, NEXT_YEAR, true, [] + [o]);
    assert [o][..0] == [];
  }
}
