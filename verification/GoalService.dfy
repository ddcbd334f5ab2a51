/** The goal calls on the tables themselves, with the bounded retry of the serializable ones. */
module GoalService {
  import opened Wrappers
  import opened Calendar
  import opened GoalPlan
  import opened GoalBalance

  const RETRY_LIMIT: nat := 3

  method SumOperations(operations: seq<Operation>, kind: OperationKind) returns (sum: nat)
    ensures sum == SumOf(operations, kind)
  {
    sum := 0;
    var i := 0;
    while i < |operations|
      invariant 0 <= i <= |operations|
      invariant sum == SumOf(operations[..i], kind)
    {
      assert operations[..i + 1][..i] == operations[..i];
      if operations[i].kind == kind {
        sum := sum + operations[i].amount;
      }
      i := i + 1;
    }
    assert operations[..i] == operations;
  }

  method BalanceCents(operations: seq<Operation>, initial: int) returns (balance: int)
    ensures balance == BalanceOf(operations, initial)
  {
    var deposited := SumOperations(operations, Deposit);
    var withdrawn := SumOperations(operations, Withdrawal);
    balance := initial + deposited - withdrawn;
  }

  ghost predicate AllSound(goals: map<string, Goal>) {
    forall g :: g in goals ==> GoalSound(goals[g])
  }

  /** What a call did: refused or given up without a trace, or written once over the tables its last attempt found. */
  ghost predicate TookEffect(id: string, call: Call, found: seq<map<string, Goal>>, conflicts: seq<bool>, attempt: nat,
                             after: map<string, Goal>, r: Result<Goal, Refusal>)
    requires |conflicts| == |found|
  {
    1 <= attempt <= |found|
    && (forall k :: 0 <= k < attempt - 1 ==> conflicts[k])
    && var before := found[attempt - 1];
       match r
       case Ok(goal) =>
         id in before && Refused(before[id], call).None? && !conflicts[attempt - 1]
         && goal == Written(before[id], call) && after == before[id := goal]
       case Err(e) =>
         after == before
         && (if id !in before then e == GoalNotFound
             else if Refused(before[id], call).Some? then Some(e) == Refused(before[id], call)
             else e == SerializationConflict && attempt == |found| && conflicts[attempt - 1])
  }

  class Goals {
    var goals: map<string, Goal>

    constructor ()
      ensures goals == map[] && Sound()
    {
      goals := map[];
    }

    ghost predicate Sound()
      reads this
    {
      AllSound(goals)
    }

    method CreateGoal(id: string, target: int, initial: nat, text: string, today: Date) returns (r: Result<Date, DateError>)
      requires Sound() && id !in goals && IsDate(today)
      modifies this
      ensures Sound()
      ensures r == ParseTargetDate(text, today)
      ensures goals == if r.Ok? then old(goals)[id := Goal(target, initial, r.value, false, [])] else old(goals)
    {
      r := ParseTargetDate(text, today);
      if r.Ok? {
        goals := goals[id := Goal(target, initial, r.value, false, [])];
        assert Balance(goals[id]) == initial;
      }
    }

    /** One attempt of an edit or an operation: read, check, write. */
    method Attempt(id: string, call: Call) returns (r: Result<Goal, Refusal>)
      modifies this
      ensures r.Ok? <==> id in old(goals) && Refused(old(goals)[id], call).None?
      ensures r.Ok? ==> r.value == Written(old(goals)[id], call) && goals == old(goals)[id := r.value]
      ensures r.Err? ==> goals == old(goals)
      ensures r.Err? ==> if id !in old(goals) then r.error == GoalNotFound else Some(r.error) == Refused(old(goals)[id], call)
    {
      if id !in goals {
        return Err(GoalNotFound);
      }
      var goal := goals[id];
      if goal.archived {
        return Err(GoalArchived);
      }
      match call {
      case Edit(target, initial, targetDate) =>
        var newInitial := if initial.Some? then initial.value else goal.initial;
        var balance := BalanceCents(goal.operations, newInitial);
        if balance < 0 {
          return Err(NegativeBalance);
        }
        if targetDate.Some? && targetDate.value.Err? {
          return Err(BadDate);
        }
        goal := goal.(initial := newInitial);
        if target.Some? {
          goal := goal.(target := target.value);
        }
        if targetDate.Some? {
          goal := goal.(targetDate := targetDate.value.value);
        }
      case Add(op, kind, amount, date) =>
        if date.Err? {
          return Err(BadDate);
        }
        if kind == Withdrawal {
          var balance := BalanceCents(goal.operations, goal.initial);
          if balance - amount < 0 {
            return Err(NegativeBalance);
          }
        }
        goal := goal.(operations := goal.operations + [Operation(op, kind, amount, date.value)]);
      case Change(op, kind, amount, date) =>
        if Find(goal.operations, op).None? {
          return Err(OperationNotFound);
        }
        var balance := BalanceCents(Without(goal.operations, op), goal.initial);
        if balance + (if kind == Deposit then amount else 0 - amount) < 0 {
          return Err(NegativeBalance);
        }
        if date.Err? {
          return Err(BadDate);
        }
        goal := goal.(operations := Replaced(goal.operations, Operation(op, kind, amount, date.value)));
      case Remove(op) =>
        if Find(goal.operations, op).None? {
          return Err(OperationNotFound);
        }
        var balance := BalanceCents(Without(goal.operations, op), goal.initial);
        if balance < 0 {
          return Err(NegativeBalance);
        }
        goal := goal.(operations := Without(goal.operations, op));
      }
      goals := goals[id := goal];
      return Ok(goal);
    }

    /**
     At most three attempts, each on the tables as it finds them; an attempt whose commit meets a conflict leaves nothing
     behind. The call takes effect once, in the attempt returned, or not at all.
     */
    method RunSerializable(id: string, call: Call, found: seq<map<string, Goal>>, conflicts: seq<bool>)
      returns (r: Result<Goal, Refusal>, attempt: nat)
      requires |conflicts| == |found| == 3 && found[0] == goals
      requires forall k :: 0 <= k < |found| ==> AllSound(found[k]) && (id in found[k] ==> FreshFor(found[k][id].operations, call))
      modifies this
      ensures Sound()
      ensures TookEffect(id, call, found, conflicts, attempt, goals, r)
    {
      attempt := 1;
      while true
        invariant 1 <= attempt <= RETRY_LIMIT
        invariant forall k :: 0 <= k < attempt - 1 ==> conflicts[k] && id in found[k] && Refused(found[k][id], call).None?
        decreases RETRY_LIMIT - attempt
      {
        goals := found[attempt - 1];
        r := Attempt(id, call);
        if r.Err? {
          return;
        }
        if !conflicts[attempt - 1] {
          WrittenSound(found[attempt - 1][id], found[attempt - 1][id], call);
          return;
        }
        goals := found[attempt - 1];
        if attempt == RETRY_LIMIT {
          r := Err(SerializationConflict);
          return;
        }
        attempt := attempt + 1;
      }
    }

    /** A new target date is read against today like the first one. */
    method UpdateGoal(id: string, target: Option<int>, initial: Option<nat>, text: Option<string>, today: Date,
                      found: seq<map<string, Goal>>, conflicts: seq<bool>)
      returns (r: Result<Goal, Refusal>, attempt: nat)
      requires |conflicts| == |found| == 3 && found[0] == goals && forall k :: 0 <= k < |found| ==> AllSound(found[k])
      requires IsDate(today)
      modifies this
      ensures Sound()
      ensures var targetDate := if text.Some? then Some(ParseTargetDate(text.value, today)) else None;
              TookEffect(id, Edit(target, initial, targetDate), found, conflicts, attempt, goals, r)
    {
      var targetDate := if text.Some? then Some(ParseTargetDate(text.value, today)) else None;
      r, attempt := RunSerializable(id, Edit(target, initial, targetDate), found, conflicts);
    }

    /** The date is read against today before the balance is looked at. */
    method CreateOperation(id: string, operation: string, kind: OperationKind, amount: nat, date: string, today: Date,
                           found: seq<map<string, Goal>>, conflicts: seq<bool>)
      returns (r: Result<Goal, Refusal>, attempt: nat)
      requires |conflicts| == |found| == 3 && found[0] == goals && forall k :: 0 <= k < |found| ==> AllSound(found[k])
      requires forall k :: 0 <= k < |found| && id in found[k] ==> Find(found[k][id].operations, operation).None?
      modifies this
      ensures Sound()
      ensures TookEffect(id, Add(operation, kind, amount, ParseOperationDate(date, today)), found, conflicts, attempt, goals, r)
    {
      var call := Add(operation, kind, amount, ParseOperationDate(date, today));
      forall k | 0 <= k < |found| && id in found[k] ensures FreshFor(found[k][id].operations, call) {
        NoneIsFresh(found[k][id].operations, operation);
      }
      r, attempt := RunSerializable(id, call, found, conflicts);
    }

    method UpdateOperation(id: string, operation: string, kind: OperationKind, amount: nat, date: string, today: Date,
                           found: seq<map<string, Goal>>, conflicts: seq<bool>)
      returns (r: Result<Goal, Refusal>, attempt: nat)
      requires |conflicts| == |found| == 3 && found[0] == goals && forall k :: 0 <= k < |found| ==> AllSound(found[k])
      modifies this
      ensures Sound()
      ensures TookEffect(id, Change(operation, kind, amount, ParseOperationDate(date, today)), found, conflicts, attempt, goals, r)
    {
      r, attempt := RunSerializable(id, Change(operation, kind, amount, ParseOperationDate(date, today)), found, conflicts);
    }

    method DeleteOperation(id: string, operation: string, found: seq<map<string, Goal>>, conflicts: seq<bool>)
      returns (r: Result<Goal, Refusal>, attempt: nat)
      requires |conflicts| == |found| == 3 && found[0] == goals && forall k :: 0 <= k < |found| ==> AllSound(found[k])
      modifies this
      ensures Sound() && TookEffect(id, Remove(operation), found, conflicts, attempt, goals, r)
    {
      r, attempt := RunSerializable(id, Remove(operation), found, conflicts);
    }

    method SetArchived(id: string, archived: bool) returns (r: Result<Goal, Refusal>)
      requires Sound()
      modifies this
      ensures Sound()
      ensures id !in old(goals) ==> r == Err(GoalNotFound) && goals == old(goals)
      ensures id in old(goals) ==> r == Ok(old(goals)[id].(archived := archived)) && goals == old(goals)[id := r.value]
    {
      if id !in goals {
        return Err(GoalNotFound);
      }
      var previous := goals[id];
      if previous.archived == archived {
        return Ok(previous);
      }
      goals := goals[id := previous.(archived := archived)];
      assert Balance(goals[id]) == Balance(previous);
      return Ok(goals[id]);
    }

    method DeleteGoal(id: string) returns (r: Result<(), Refusal>)
      requires Sound()
      modifies this
      ensures Sound()
      ensures goals == old(goals) - {id}
      ensures r == if id in old(goals) then Ok(()) else Err(GoalNotFound)
    {
      if id !in goals {
        return Err(GoalNotFound);
      }
      goals := goals - {id};
      return Ok(());
    }
  }
}
