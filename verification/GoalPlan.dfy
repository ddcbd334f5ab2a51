/** A savings goal's plan on the server, its preview in the browser, and the allowed target dates. */
module GoalPlan {
  import opened Wrappers
  import opened Text
  import opened Sorting
  import opened Calendar

  // ----- the server -----

  datatype Status = Active | Completed | Overdue

  datatype PlanInput = PlanInput(target: int, initial: int, deposited: int, withdrawn: int, targetDate: Date, planStart: Date, today: Date)

  datatype Plan = Plan(current: int, remaining: int, remainingMonths: nat, recommended: Option<int>, status: Status)

  /** `Math.ceil(a / b)` for a sum of cents and a number of months. */
  function CeilDiv(a: int, b: int): int
    requires b > 0
  {
    if a % b == 0 then a / b else a / b + 1
  }

  function InclusiveMonthCount(start: Date, end: Date): nat {
    Max((end.year - start.year) * 12 + end.month - start.month + 1, 0)
  }

  function LaterMonth(a: Date, b: Date): (r: Date)
    requires IsDate(a) && IsDate(b)
    ensures IsDate(r)
  {
    if !Earlier(a, b) then StartOfUtcMonth(a) else StartOfUtcMonth(b)
  }

  function CalculateGoalPlan(i: PlanInput): Plan
    requires IsDate(i.targetDate) && IsDate(i.planStart) && IsDate(i.today)
  {
    var current := i.initial + i.deposited - i.withdrawn;
    var remaining := Max(i.target - current, 0);
    var completed := current >= i.target;
    var overdue := Earlier(i.targetDate, i.today);
    var firstMonth := LaterMonth(i.planStart, StartOfUtcMonth(i.today));
    var months := if overdue then 0 else InclusiveMonthCount(firstMonth, StartOfUtcMonth(i.targetDate));
    Plan(current, remaining, months,
         if completed then Some(0) else if months > 0 then Some(CeilDiv(remaining, months)) else None,
         if completed then Completed else if overdue then Overdue else Active)
  }

  datatype DateError = NotADate | OutOfRange | InFuture

  function ParseTargetDate(s: string, today: Date): Result<Date, DateError>
    requires IsDate(today)
  {
    match Read(s)
    case None => Err(NotADate)
    case Some(d) =>
      if Earlier(d, AddUtcMonthsClamped(today, 1)) || Earlier(AddUtcMonthsClamped(today, 120), d) then Err(OutOfRange) else Ok(d)
  }

  function ParseOperationDate(s: string, today: Date): Result<Date, DateError> {
    match Read(s)
    case None => Err(NotADate)
    case Some(d) => if Earlier(today, d) then Err(InFuture) else Ok(d)
  }

  function PlanStartMonth(today: Date, includeCurrentMonth: bool): Date
    requires IsDate(today)
  {
    StartOfUtcMonth(if includeCurrentMonth then today else AddUtcMonthsClamped(today, 1))
  }

  // ----- the browser -----

  datatype Preview = Preview(months: nat, monthly: int)

  function PreviewMonthlyAmount(target: int, initial: int, today: string, targetDate: string, includeCurrentMonth: bool): Option<Preview> {
    match (Read(today), Read(targetDate))
    case (Some(t), Some(d)) =>
      var startOffset := if includeCurrentMonth then 0 else 1;
      var months := Max(0, (d.year - t.year) * 12 + d.month - t.month - startOffset + 1);
      var remaining := Max(target - initial, 0);
      Some(Preview(months, if months > 0 then CeilDiv(remaining, months) else remaining))
    case _ => None
  }

  method MonthsUntilDate(today: string, target: string) returns (months: Option<int>)
    ensures months == MonthsUntil(today, target)
  {
    var t, d := Read(today), Read(target);
    if t.None? || d.None? {
      return None;
    }
    var n := (d.value.year - t.value.year) * 12 + d.value.month - t.value.month;
    var moved := AddMonthsClamped(today, n);
    if moved.None? {
      return None;
    }
    if TextLess(moved.value, target) {
      n := n + 1;
    }
    return Some(Min(120, Max(1, n)));
  }

  function MonthsUntil(today: string, target: string): Option<int> {
    match (Read(today), Read(target))
    case (Some(t), Some(d)) =>
      var n := (d.year - t.year) * 12 + d.month - t.month;
      (match AddMonthsClamped(today, n)
       case None => None
       case Some(moved) => Some(Min(120, Max(1, if TextLess(moved, target) then n + 1 else n))))
    case _ => None
  }

  // ----- ceilings -----

  /** The rounded-up share is the least that covers the sum. */
  lemma CeilIsLeast(a: int, b: int)
    requires a >= 0 && b > 0
    ensures CeilDiv(a, b) * b >= a && (CeilDiv(a, b) - 1) * b < a && CeilDiv(a, b) >= 0
    ensures a == 0 ==> CeilDiv(a, b) == 0
  {
    assert a == a / b * b + a % b;
    assert (a / b + 1) * b == a / b * b + b;
    assert (a / b - 1) * b == a / b * b - b;
  }

  // ----- months until a date -----

  /** n is the least number of months that reaches the target. */
  ghost predicate IsLeast(today: Date, target: Date, n: int)
    requires IsDate(today)
  {
    !Earlier(AddUtcMonthsClamped(today, n), target) && forall k: int :: k < n ==> Earlier(AddUtcMonthsClamped(today, k), target)
  }

  lemma LeastMonths(today: Date, target: Date)
    requires IsDate(today) && IsDate(target)
    ensures var n := MonthIndex(target) - MonthIndex(today);
            IsLeast(today, target, if Earlier(AddUtcMonthsClamped(today, n), target) then n + 1 else n)
  {
    hide AddUtcMonthsClamped;
    var n := MonthIndex(target) - MonthIndex(today);
    forall k: int ensures MonthIndex(AddUtcMonthsClamped(today, k)) == MonthIndex(today) + k {
      AddedMonths(today, k);
    }
  }

  lemma LeastIsUnique(today: Date, target: Date, m: int, n: int)
    requires IsDate(today) && IsLeast(today, target, m) && IsLeast(today, target, n)
    ensures m == n
  {
  }

  /** The browser's count is the least number of months that reaches the target, kept between 1 and 120. */
  lemma MonthsUntilIsLeast(today: Date, target: Date, n: int)
    requires Printable(today) && Printable(target)
    ensures IsLeast(today, target, n) ==> MonthsUntil(Print(today), Print(target)) == Some(Min(120, Max(1, n)))
  {
    hide Read, Print, TextLess, AddUtcMonthsClamped, AddMonthsClamped, IsLeast;
    ReadPrinted(today);
    ReadPrinted(target);
    var d := MonthIndex(target) - MonthIndex(today);
    AddAgrees(today, d);
    AddedMonths(today, d);
    SameMonth(AddUtcMonthsClamped(today, d), target);
    YearOf(AddUtcMonthsClamped(today, d), target);
    TextOrder(AddUtcMonthsClamped(today, d), target);
    LeastMonths(today, target);
    if IsLeast(today, target, n) {
      LeastIsUnique(today, target, n, if Earlier(AddUtcMonthsClamped(today, d), target) then d + 1 else d);
    }
  }

  lemma YearOf(a: Date, b: Date)
    requires IsDate(a) && Printable(b) && a.year == b.year
    ensures Printable(a)
  {
  }

  /** Picking a number of months and counting it back from the date gives the number again. */
  lemma MonthsRoundTrip(today: Date, n: int)
    requires Printable(today) && 1 <= n <= 120 && AddUtcMonthsClamped(today, n).year <= 9999
    ensures AddMonthsClamped(Print(today), n).Some?
    ensures MonthsUntil(Print(today), AddMonthsClamped(Print(today), n).value) == Some(n)
  {
    hide AddMonthsClamped, Print;
    AddAgrees(today, n);
    AddedMonths(today, n);
    var target := AddUtcMonthsClamped(today, n);
    LaterYear(today, target);
    hide AddUtcMonthsClamped;
    forall k: int | k < n ensures Earlier(AddUtcMonthsClamped(today, k), target) {
      AddIsMonotone(today, k, n);
    }
    OrderIsTotal(target, target);
    assert IsLeast(today, target, n);
    MonthsUntilIsLeast(today, target, n);
  }

  lemma LaterYear(a: Date, b: Date)
    requires IsDate(a) && IsDate(b) && MonthIndex(a) <= MonthIndex(b)
    ensures a.year <= b.year
  {
  }

  // ----- the two plans -----

  /** A target date is accepted exactly when it is a printed date, as text from the one a month ahead to the one 120 months ahead. */
  lemma TargetDateExactly(text: string, today: Date, d: Date)
    requires Printable(today) && AddUtcMonthsClamped(today, 120).year <= 9999
    ensures Printable(AddUtcMonthsClamped(today, 1)) && Printable(AddUtcMonthsClamped(today, 120))
    ensures ParseTargetDate(text, today) == Ok(d)
            <==> Printable(d) && text == Print(d) && StringLe(Print(AddUtcMonthsClamped(today, 1)), text)
                 && StringLe(text, Print(AddUtcMonthsClamped(today, 120)))
  {
    hide Read, Print, StringLe, Earlier, MonthIndex;
    AddedMonths(today, 1);
    AddedMonths(today, 120);
    var lo, hi := AddUtcMonthsClamped(today, 1), AddUtcMonthsClamped(today, 120);
    assert MonthIndex(today) <= MonthIndex(lo) <= MonthIndex(hi);
    LaterYear(today, lo);
    LaterYear(lo, hi);
    hide AddUtcMonthsClamped;
    ReadExactly(text, d);
    if Printable(d) {
      TextOrder(lo, d);
      TextOrder(d, hi);
    }
  }

  /** An operation's date is accepted exactly when it is a printed date, as text no later than today; a later one is in the future. */
  lemma OperationDateExactly(text: string, today: Date, d: Date)
    requires Printable(today)
    ensures ParseOperationDate(text, today) == Ok(d) <==> Printable(d) && text == Print(d) && StringLe(text, Print(today))
    ensures ParseOperationDate(text, today) == Err(InFuture)
            <==> exists e :: Printable(e) && text == Print(e) && !StringLe(text, Print(today))
  {
    hide Read, Print, StringLe, Earlier;
    ReadExactly(text, d);
    if Printable(d) {
      TextOrder(d, today);
    }
    if Read(text).Some? {
      ReadExactly(text, Read(text).value);
      TextOrder(Read(text).value, today);
    }
    if e :| Printable(e) && text == Print(e) && !StringLe(text, Print(today)) {
      ReadExactly(text, e);
      TextOrder(e, today);
    }
  }

  /** The range the form offers, as text, is the range the server accepts. */
  lemma SameRange(today: Date, d: Date)
    requires Printable(today) && AddUtcMonthsClamped(today, 120).year <= 9999 && Printable(d)
    ensures var min, max := AddMonthsClamped(Print(today), 1), AddMonthsClamped(Print(today), 120);
            min.Some? && max.Some?
            && (StringLe(min.value, Print(d)) && StringLe(Print(d), max.value) <==> ParseTargetDate(Print(d), today).Ok?)
  {
    hide AddMonthsClamped, Print, Read, StringLe;
    AddAgrees(today, 1);
    AddAgrees(today, 120);
    AddedMonths(today, 1);
    AddedMonths(today, 120);
    var lo, hi := AddUtcMonthsClamped(today, 1), AddUtcMonthsClamped(today, 120);
    LaterYear(today, lo);
    LaterYear(lo, hi);
    hide AddUtcMonthsClamped;
    ReadPrinted(d);
    TextOrder(lo, d);
    TextOrder(d, hi);
  }

  lemma StartIndex(d: Date)
    requires IsDate(d)
    ensures MonthIndex(StartOfUtcMonth(d)) == MonthIndex(d) && StartOfUtcMonth(d).day == 1
  {
    SplitMonths(d.month - 1);
  }

  /** On the month index the first plan month is the later of the two months. */
  lemma FirstMonthIndex(planStart: Date, today: Date)
    requires IsDate(planStart) && IsDate(today) && planStart.day == 1
    ensures MonthIndex(LaterMonth(planStart, StartOfUtcMonth(today))) == Max(MonthIndex(planStart), MonthIndex(today))
  {
    hide StartOfUtcMonth;
    StartIndex(planStart);
    StartIndex(today);
    StartIndex(StartOfUtcMonth(today));
  }

  lemma MonthCount(a: Date, b: Date)
    ensures InclusiveMonthCount(a, b) == Max(MonthIndex(b) - MonthIndex(a) + 1, 0)
  {
  }

  lemma PlanMonths(i: PlanInput)
    requires IsDate(i.targetDate) && IsDate(i.planStart) && IsDate(i.today) && i.planStart.day == 1
    ensures CalculateGoalPlan(i).remainingMonths
            == if Earlier(i.targetDate, i.today) then 0
               else Max(MonthIndex(i.targetDate) - Max(MonthIndex(i.planStart), MonthIndex(i.today)) + 1, 0)
  {
    hide StartOfUtcMonth, LaterMonth, InclusiveMonthCount;
    FirstMonthIndex(i.planStart, i.today);
    StartIndex(i.targetDate);
    MonthCount(LaterMonth(i.planStart, StartOfUtcMonth(i.today)), StartOfUtcMonth(i.targetDate));
  }

  /** Whatever is left is covered by the recommended amount in the months left, and by no smaller one. */
  lemma RecommendedIsLeast(i: PlanInput)
    requires IsDate(i.targetDate) && IsDate(i.planStart) && IsDate(i.today) && i.planStart.day == 1
    ensures var p := CalculateGoalPlan(i);
            && p.current == i.initial + i.deposited - i.withdrawn
            && p.remaining == (if p.current < i.target then i.target - p.current else 0)
            && (p.status == Completed <==> p.current >= i.target)
            && (p.status == Overdue <==> p.current < i.target && Earlier(i.targetDate, i.today))
            && (p.status == Completed ==> p.recommended == Some(0))
            && (p.recommended.None? <==> p.status != Completed && p.remainingMonths == 0)
            && (p.recommended.Some? ==>
                  p.recommended.value * p.remainingMonths >= p.remaining || p.remaining == 0)
            && (p.recommended.Some? && p.remaining > 0 ==> (p.recommended.value - 1) * p.remainingMonths < p.remaining)
            && (p.status == Overdue ==> p.remainingMonths == 0)
  {
    hide StartOfUtcMonth, LaterMonth, InclusiveMonthCount, CeilDiv;
    var p := CalculateGoalPlan(i);
    if p.remainingMonths > 0 {
      CeilIsLeast(p.remaining, p.remainingMonths);
    }
  }

  lemma StartOfPlan(today: Date, includeCurrentMonth: bool)
    requires IsDate(today)
    ensures var s := PlanStartMonth(today, includeCurrentMonth);
            IsDate(s) && s.day == 1 && MonthIndex(s) == MonthIndex(today) + if includeCurrentMonth then 0 else 1
  {
    hide StartOfUtcMonth, AddUtcMonthsClamped;
    AddedMonths(today, 1);
    StartIndex(today);
    StartIndex(AddUtcMonthsClamped(today, 1));
  }

  lemma TargetLater(today: Date, d: Date)
    requires IsDate(today) && IsDate(d) && !Earlier(d, AddUtcMonthsClamped(today, 1))
    ensures MonthIndex(d) > MonthIndex(today) && !Earlier(d, today)
  {
    hide AddUtcMonthsClamped;
    AddedMonths(today, 1);
  }

  lemma MonthsOnIndex(t: Date, d: Date, offset: int)
    ensures (d.year - t.year) * 12 + d.month - t.month - offset + 1 == MonthIndex(d) - MonthIndex(t) - offset + 1
  {
  }

  /** For every allowed target date the preview shows the months and the monthly amount of the goal as the server then plans it. */
  lemma TwoPlansAgree(today: Date, text: string, target: int, initial: int, includeCurrentMonth: bool)
    requires Printable(today)
    ensures ParseTargetDate(text, today).Ok? ==>
              var d := ParseTargetDate(text, today).value;
              var plan := CalculateGoalPlan(PlanInput(target, initial, 0, 0, d, PlanStartMonth(today, includeCurrentMonth), today));
              var preview := PreviewMonthlyAmount(target, initial, Print(today), text, includeCurrentMonth);
              && plan.remainingMonths >= 1 && plan.recommended.Some?
              && preview == Some(Preview(plan.remainingMonths, plan.recommended.value))
              && plan.recommended.value * plan.remainingMonths >= plan.remaining
              && (plan.remaining > 0 ==> (plan.recommended.value - 1) * plan.remainingMonths < plan.remaining)
  {
    hide Read, Print, CeilDiv, StartOfUtcMonth, LaterMonth, InclusiveMonthCount, AddUtcMonthsClamped, PlanStartMonth, MonthIndex, Earlier;
    ReadPrinted(today);
    StartOfPlan(today, includeCurrentMonth);
    if ParseTargetDate(text, today).Ok? {
      var d := ParseTargetDate(text, today).value;
      TargetLater(today, d);
      var i := PlanInput(target, initial, 0, 0, d, PlanStartMonth(today, includeCurrentMonth), today);
      PlanMonths(i);
      MonthsOnIndex(today, d, if includeCurrentMonth then 0 else 1);
      var plan := CalculateGoalPlan(i);
      CeilIsLeast(plan.remaining, plan.remainingMonths);
    }
  }
}
