/** Budget progress: spending rolled up a category tree with a memo, against a plain sum over the spending rows. */
module BudgetProgress {
  import opened Wrappers
  import opened Sorting

  datatype Category = Category(id: string, parent: Option<string>, name: string, systemKey: Option<string>)

  datatype Budget = Budget(categoryId: Option<string>, amount: int)

  datatype Spending = Spending(categoryId: string, amount: int)

  datatype Progress = Progress(categoryId: string, name: string, systemKey: Option<string>, budget: Option<int>, spent: int,
                               remaining: Option<int>, basisPoints: Option<int>)

  function Ids(cats: seq<Category>): (ids: seq<string>)
    ensures |ids| == |cats|
  {
    seq(|cats|, i requires 0 <= i < |cats| => cats[i].id)
  }

  /** A missing and an empty reference count alike. */
  function Link(o: Option<string>): Option<string> {
    if o == Some("") then None else o
  }

  /** The parent of a listed category. */
  function ParentOf(cats: seq<Category>, x: string): Option<string> {
    if cats == [] then None
    else if cats[0].id == x then Link(cats[0].parent)
    else ParentOf(cats[1..], x)
  }

  /** The n-th ancestor, 0 being the category itself. */
  function Up(cats: seq<Category>, x: string, n: nat): Option<string>
    decreases n
  {
    if n == 0 then Some(x)
    else match ParentOf(cats, x) case None => None case Some(p) => Up(cats, p, n - 1)
  }

  /** No listed category reaches itself: climbing further than the list is long always ends. */
  predicate Acyclic(cats: seq<Category>) {
    forall i :: 0 <= i < |cats| ==> Up(cats, cats[i].id, |cats| + 1) == None
  }

  predicate WellFormed(cats: seq<Category>) {
    Distinct(Ids(cats)) && Acyclic(cats)
  }

  /** x is c or a descendant of c. */
  predicate IsUnder(cats: seq<Category>, x: string, c: string) {
    exists n :: 0 <= n <= |cats| + 1 && Up(cats, x, n) == Some(c)
  }

  /** The reference: every spending row whose category is c or below it, once. */
  function PlainSum(cats: seq<Category>, spending: seq<Spending>, c: string): int {
    if spending == [] then 0
    else
      var last := spending[|spending| - 1];
      PlainSum(cats, spending[..|spending| - 1], c) + (if IsUnder(cats, last.categoryId, c) then last.amount else 0)
  }

  function Own(spending: seq<Spending>, c: string): int {
    if spending == [] then 0
    else Own(spending[..|spending| - 1], c) + (if spending[|spending| - 1].categoryId == c then spending[|spending| - 1].amount else 0)
  }

  /** The ids listed under a parent, in list order. */
  function Children(cats: seq<Category>, p: string): seq<string> {
    if cats == [] then []
    else
      var init := Children(cats[..|cats| - 1], p);
      if Link(cats[|cats| - 1].parent) == Some(p) then init + [cats[|cats| - 1].id] else init
  }

  function SumOver(cats: seq<Category>, spending: seq<Spending>, ids: seq<string>): int {
    if ids == [] then 0
    else SumOver(cats, spending, ids[..|ids| - 1]) + PlainSum(cats, spending, ids[|ids| - 1])
  }

  // ----- climbing -----

  function Depth(cats: seq<Category>, x: string, fuel: nat): (d: nat)
    ensures d <= fuel
    decreases fuel
  {
    if fuel == 0 then 0
    else match ParentOf(cats, x) case None => 0 case Some(p) => 1 + Depth(cats, p, fuel - 1)
  }

  lemma {:induction false} UpSum(cats: seq<Category>, x: string, m: nat, n: nat)
    requires Up(cats, x, m).Some?
    ensures Up(cats, x, m + n) == Up(cats, Up(cats, x, m).value, n)
    decreases m
  {
    if m > 0 {
      UpSum(cats, ParentOf(cats, x).value, m - 1, n);
    }
  }

  lemma {:induction false} ParentListed(cats: seq<Category>, x: string)
    ensures ParentOf(cats, x).Some? ==> exists i :: 0 <= i < |cats| && cats[i].id == x && Link(cats[i].parent) == ParentOf(cats, x)
    ensures x !in Ids(cats) ==> ParentOf(cats, x) == None
  {
    if cats != [] {
      ParentListed(cats[1..], x);
      assert forall y :: y in Ids(cats[1..]) ==> y in Ids(cats) by {
        forall y | y in Ids(cats[1..]) ensures y in Ids(cats) {
          var i :| 0 <= i < |cats[1..]| && Ids(cats[1..])[i] == y;
          assert Ids(cats)[i + 1] == y;
        }
      }
      assert Ids(cats)[0] == cats[0].id;
    }
  }

  lemma {:induction false} ParentFound(cats: seq<Category>, i: nat)
    requires Distinct(Ids(cats)) && i < |cats|
    ensures ParentOf(cats, cats[i].id) == Link(cats[i].parent)
  {
    assert Ids(cats)[0] == cats[0].id && Ids(cats)[i] == cats[i].id;
    if i > 0 {
      assert forall j :: 0 <= j < |cats| - 1 ==> Ids(cats[1..])[j] == Ids(cats)[j + 1];
      ParentFound(cats[1..], i - 1);
    }
  }

  /** From any text at all, climbing ends. */
  lemma UpEnds(cats: seq<Category>, x: string)
    requires Acyclic(cats)
    ensures Up(cats, x, |cats| + 1) == None
  {
    ParentListed(cats, x);
    if ParentOf(cats, x).Some? {
      var i :| 0 <= i < |cats| && cats[i].id == x && Link(cats[i].parent) == ParentOf(cats, x);
    }
  }

  lemma {:induction false} DepthFuel(cats: seq<Category>, x: string, f: nat)
    requires Up(cats, x, f) == None
    ensures Depth(cats, x, f) == Depth(cats, x, f + 1)
    decreases f
  {
    if f > 0 && ParentOf(cats, x).Some? {
      DepthFuel(cats, ParentOf(cats, x).value, f - 1);
    }
  }

  /** Each link climbed lowers the depth by one. */
  lemma {:induction false} DepthUp(cats: seq<Category>, x: string, n: nat)
    requires Acyclic(cats) && Up(cats, x, n).Some?
    ensures Depth(cats, Up(cats, x, n).value, |cats| + 1) == Depth(cats, x, |cats| + 1) - n
    decreases n
  {
    if n > 0 {
      var p := ParentOf(cats, x).value;
      UpEnds(cats, x);
      DepthFuel(cats, p, |cats|);
      DepthUp(cats, p, n - 1);
    }
  }

  lemma UnderAt(cats: seq<Category>, x: string, c: string, n: nat)
    requires Acyclic(cats) && Up(cats, x, n) == Some(c)
    ensures IsUnder(cats, x, c) && n == Depth(cats, x, |cats| + 1) - Depth(cats, c, |cats| + 1)
  {
    DepthUp(cats, x, n);
  }

  lemma ChildLinks(cats: seq<Category>, k: string, c: string)
    requires Distinct(Ids(cats))
    ensures k in Children(cats, c) <==> ParentOf(cats, k) == Some(c)
  {
    ChildMembers(cats, k, c);
    ParentListed(cats, k);
    if i :| 0 <= i < |cats| && cats[i].id == k && Link(cats[i].parent) == Some(c) {
      ParentFound(cats, i);
    }
  }

  lemma {:induction false} ChildMembers(cats: seq<Category>, k: string, c: string)
    ensures k in Children(cats, c) <==> exists i :: 0 <= i < |cats| && cats[i].id == k && Link(cats[i].parent) == Some(c)
    ensures Distinct(Ids(cats)) ==> Distinct(Children(cats, c))
  {
    if cats != [] {
      var init := cats[..|cats| - 1];
      ChildMembers(init, k, c);
      assert forall i :: 0 <= i < |init| ==> init[i] == cats[i] && Ids(init)[i] == Ids(cats)[i];
      ChildrenListed(init, c);
      if Distinct(Ids(cats)) {
        LastIsNew(cats);
        assert cats[|cats| - 1].id !in Children(init, c);
        assert Distinct(Ids(init));
      }
    }
  }

  lemma LastIsNew(cats: seq<Category>)
    requires Distinct(Ids(cats)) && cats != []
    ensures forall j :: 0 <= j < |cats| - 1 ==> cats[j].id != cats[|cats| - 1].id
  {
    forall j | 0 <= j < |cats| - 1 ensures cats[j].id != cats[|cats| - 1].id {
      assert Ids(cats)[j] != Ids(cats)[|cats| - 1];
    }
  }

  lemma {:induction false} ChildrenListed(cats: seq<Category>, c: string)
    ensures forall k :: k in Children(cats, c) ==> exists i :: 0 <= i < |cats| && cats[i].id == k
  {
    if cats != [] {
      var init := cats[..|cats| - 1];
      ChildrenListed(init, c);
      forall k | k in Children(cats, c) ensures exists i :: 0 <= i < |cats| && cats[i].id == k {
        if k in Children(init, c) {
          var i :| 0 <= i < |init| && init[i].id == k;
          assert cats[i].id == k;
        }
      }
    }
  }

  /** Below c means c itself or below one of its children, never both. */
  lemma UnderSplits(cats: seq<Category>, x: string, c: string)
    requires WellFormed(cats)
    ensures IsUnder(cats, x, c) <==> x == c || exists k :: k in Children(cats, c) && IsUnder(cats, x, k)
    ensures forall k :: k in Children(cats, c) && IsUnder(cats, x, k) ==> x != c
    ensures forall k, l :: k in Children(cats, c) && l in Children(cats, c) && IsUnder(cats, x, k) && IsUnder(cats, x, l) ==> k == l
  {
    hide Depth, Children, ParentOf;
    if IsUnder(cats, x, c) && x != c {
      var n :| 0 <= n <= |cats| + 1 && Up(cats, x, n) == Some(c);
      var k := LastStep(cats, x, c, n);
      ChildLinks(cats, k, c);
      UnderAt(cats, x, k, n - 1);
    }
    if x == c {
      UnderAt(cats, x, c, 0);
    }
    forall k | k in Children(cats, c) && IsUnder(cats, x, k)
      ensures IsUnder(cats, x, c) && x != c && Depth(cats, x, |cats| + 1) > Depth(cats, c, |cats| + 1)
      ensures Up(cats, x, Depth(cats, x, |cats| + 1) - Depth(cats, c, |cats| + 1) - 1) == Some(k)
    {
      ChildLinks(cats, k, c);
      var n :| 0 <= n <= |cats| + 1 && Up(cats, x, n) == Some(k);
      OneMore(cats, x, k, c, n);
      UnderAt(cats, x, c, n + 1);
    }
  }

  lemma OneMore(cats: seq<Category>, x: string, k: string, c: string, n: nat)
    requires Up(cats, x, n) == Some(k) && ParentOf(cats, k) == Some(c)
    ensures Up(cats, x, n + 1) == Some(c)
  {
    UpSum(cats, x, n, 1);
    assert Up(cats, k, 1) == Up(cats, c, 0);
  }

  lemma {:induction false} LastStep(cats: seq<Category>, x: string, c: string, n: nat) returns (k: string)
    requires Up(cats, x, n) == Some(c) && n > 0
    ensures Up(cats, x, n - 1) == Some(k) && ParentOf(cats, k) == Some(c)
    decreases n
  {
    var p := ParentOf(cats, x).value;
    if n == 1 {
      k := x;
    } else {
      k := LastStep(cats, p, c, n - 1);
    }
  }

  // ----- the roll-up -----

  function Weight(cats: seq<Category>, x: string, ids: seq<string>): nat {
    if ids == [] then 0
    else Weight(cats, x, ids[..|ids| - 1]) + (if IsUnder(cats, x, ids[|ids| - 1]) then 1 else 0)
  }

  lemma {:induction false} WeightOne(cats: seq<Category>, x: string, ids: seq<string>)
    requires Distinct(ids)
    requires forall k, l :: k in ids && l in ids && IsUnder(cats, x, k) && IsUnder(cats, x, l) ==> k == l
    ensures Weight(cats, x, ids) == if exists k :: k in ids && IsUnder(cats, x, k) then 1 else 0
  {
    hide IsUnder;
    if ids != [] {
      var init, last := ids[..|ids| - 1], ids[|ids| - 1];
      assert ids == init + [last];
      WeightOne(cats, x, init);
      assert last !in init;
    }
  }

  /** One more spending row adds its amount once for each listed id above it. */
  lemma {:induction false} SumOverRow(cats: seq<Category>, spending: seq<Spending>, row: Spending, ids: seq<string>)
    ensures SumOver(cats, spending + [row], ids) == SumOver(cats, spending, ids) + row.amount * Weight(cats, row.categoryId, ids)
  {
    hide IsUnder;
    if ids != [] {
      var init, last := ids[..|ids| - 1], ids[|ids| - 1];
      SumOverRow(cats, spending, row, init);
      assert (spending + [row])[..|spending|] == spending;
      var w, u := Weight(cats, row.categoryId, init), if IsUnder(cats, row.categoryId, last) then 1 else 0;
      assert row.amount * (w + u) == row.amount * w + row.amount * u;
    }
  }

  lemma {:induction false} SumOverNothing(cats: seq<Category>, ids: seq<string>)
    ensures SumOver(cats, [], ids) == 0
  {
    if ids != [] {
      SumOverNothing(cats, ids[..|ids| - 1]);
    }
  }

  /** A total is the category's own spending and its children's totals. */
  lemma {:induction false} RollUp(cats: seq<Category>, spending: seq<Spending>, c: string)
    requires WellFormed(cats)
    ensures PlainSum(cats, spending, c) == Own(spending, c) + SumOver(cats, spending, Children(cats, c))
    decreases |spending|
  {
    hide IsUnder, Children, WellFormed;
    var kids := Children(cats, c);
    if spending == [] {
      SumOverNothing(cats, kids);
    } else {
      var init, row := spending[..|spending| - 1], spending[|spending| - 1];
      RollUp(cats, init, c);
      assert spending == init + [row];
      SumOverRow(cats, init, row, kids);
      UnderSplits(cats, row.categoryId, c);
      KidsDistinct(cats, c);
      WeightOne(cats, row.categoryId, kids);
    }
  }

  lemma KidsDistinct(cats: seq<Category>, c: string)
    requires WellFormed(cats)
    ensures Distinct(Children(cats, c))
  {
    ChildMembers(cats, c, c);
  }

  // ----- roots -----

  predicate IsRoot(cats: seq<Category>, c: string) {
    c in Ids(cats) && (ParentOf(cats, c).None? || ParentOf(cats, c).value !in Ids(cats))
  }

  function Roots(cats: seq<Category>, ids: seq<string>): seq<string> {
    if ids == [] then []
    else
      var init := Roots(cats, ids[..|ids| - 1]);
      if IsRoot(cats, ids[|ids| - 1]) then init + [ids[|ids| - 1]] else init
  }

  lemma {:induction false} RootMembers(cats: seq<Category>, ids: seq<string>)
    ensures forall k :: k in Roots(cats, ids) <==> k in ids && IsRoot(cats, k)
    ensures Distinct(ids) ==> Distinct(Roots(cats, ids))
  {
    hide IsRoot;
    if ids != [] {
      var init, last := ids[..|ids| - 1], ids[|ids| - 1];
      RootMembers(cats, init);
      assert ids == init + [last];
      assert forall k :: k in ids <==> k in init || k == last;
    }
  }

  lemma {:induction false} RootAbove(cats: seq<Category>, x: string, fuel: nat) returns (r: string)
    requires Acyclic(cats) && x in Ids(cats) && Up(cats, x, fuel) == None
    ensures IsRoot(cats, r) && IsUnder(cats, x, r)
    decreases fuel
  {
    if IsRoot(cats, x) {
      r := x;
      UnderAt(cats, x, x, 0);
    } else {
      var p := ParentOf(cats, x).value;
      r := RootAbove(cats, p, fuel - 1);
      var n :| 0 <= n <= |cats| + 1 && Up(cats, p, n) == Some(r);
      assert Up(cats, x, n + 1) == Some(r);
      UnderAt(cats, x, r, n + 1);
    }
  }

  lemma OneRoot(cats: seq<Category>, x: string, r: string, q: string)
    requires Acyclic(cats) && IsRoot(cats, r) && IsRoot(cats, q) && IsUnder(cats, x, r) && IsUnder(cats, x, q)
    ensures r == q
  {
    var m :| 0 <= m <= |cats| + 1 && Up(cats, x, m) == Some(r);
    var n :| 0 <= n <= |cats| + 1 && Up(cats, x, n) == Some(q);
    if m <= n {
      UpSum(cats, x, m, n - m);
      RootEnds(cats, r, q, n - m);
    } else {
      UpSum(cats, x, n, m - n);
      RootEnds(cats, q, r, m - n);
    }
  }

  /** Above a root there is at most one unlisted reference. */
  lemma RootEnds(cats: seq<Category>, r: string, q: string, d: nat)
    requires IsRoot(cats, r) && q in Ids(cats) && Up(cats, r, d) == Some(q)
    ensures r == q
  {
    if ParentOf(cats, r).Some? {
      ParentListed(cats, ParentOf(cats, r).value);
    }
    RootClimb(cats, r, d);
  }

  lemma RootClimb(cats: seq<Category>, r: string, d: nat)
    requires ParentOf(cats, r).Some? ==> ParentOf(cats, r).value !in Ids(cats) && ParentOf(cats, ParentOf(cats, r).value).None?
    ensures d > 0 && Up(cats, r, d).Some? ==> Up(cats, r, d).value !in Ids(cats)
  {
  }

  function ListedSum(cats: seq<Category>, spending: seq<Spending>): int {
    if spending == [] then 0
    else ListedSum(cats, spending[..|spending| - 1]) + (if spending[|spending| - 1].categoryId in Ids(cats) then spending[|spending| - 1].amount else 0)
  }

  lemma RootWeight(cats: seq<Category>, x: string)
    requires WellFormed(cats)
    ensures Weight(cats, x, Roots(cats, Ids(cats))) == if x in Ids(cats) then 1 else 0
  {
    hide IsUnder, Ids, Acyclic;
    var roots := Roots(cats, Ids(cats));
    RootMembers(cats, Ids(cats));
    forall k, l | k in roots && l in roots && IsUnder(cats, x, k) && IsUnder(cats, x, l) ensures k == l {
      OneRoot(cats, x, k, l);
    }
    WeightOne(cats, x, roots);
    if x in Ids(cats) {
      UpEnds(cats, x);
      var r := RootAbove(cats, x, |cats| + 1);
      assert r in roots;
    } else {
      forall k | k in roots ensures !IsUnder(cats, x, k) {
        UnlistedAlone(cats, x, k);
      }
    }
  }

  lemma UnlistedAlone(cats: seq<Category>, x: string, k: string)
    requires x !in Ids(cats) && k in Ids(cats)
    ensures !IsUnder(cats, x, k)
  {
    ParentListed(cats, x);
  }

  /** The totals of the roots add up to all spending on listed categories. */
  lemma {:induction false} RootsAddUp(cats: seq<Category>, spending: seq<Spending>)
    requires WellFormed(cats)
    ensures SumOver(cats, spending, Roots(cats, Ids(cats))) == ListedSum(cats, spending)
    decreases |spending|
  {
    hide IsUnder, Roots, WellFormed, Ids;
    var roots := Roots(cats, Ids(cats));
    if spending == [] {
      SumOverNothing(cats, roots);
    } else {
      var init, row := spending[..|spending| - 1], spending[|spending| - 1];
      RootsAddUp(cats, init);
      assert spending == init + [row];
      SumOverRow(cats, init, row, roots);
      RootWeight(cats, row.categoryId);
    }
  }

  // ----- percentages -----

  /** JavaScript's truncated quotient and its remainder, which takes the sign of the dividend. */
  function TruncDiv(a: int, b: int): int
    requires b > 0
  {
    if a >= 0 then a / b else -((-a) / b)
  }

  function TruncMod(a: int, b: int): int
    requires b > 0
  {
    a - TruncDiv(a, b) * b
  }

  function BasisPoints(spent: int, budget: int): int {
    if budget <= 0 then 0
    else TruncDiv(spent * 10000, budget) + (if TruncMod(spent * 10000, budget) * 2 >= budget then 1 else 0)
  }

  /** r is within half a basis point of spent / budget. */
  predicate WithinHalf(r: int, spent: int, budget: int) {
    -budget <= 2 * (r * budget - spent * 10000) <= budget
  }

  /** Spending rounds half up; a refund in excess of spending rounds toward zero, which is within half only up to half. */
  lemma PercentageExactly(spent: int, budget: int)
    requires budget > 0
    ensures spent >= 0 ==> WithinHalf(BasisPoints(spent, budget), spent, budget)
    ensures WithinHalf(BasisPoints(spent, budget), spent, budget) <==> spent >= 0 || (-spent * 10000) % budget * 2 <= budget
    ensures spent >= 0 ==> -budget <= 2 * (spent * 10000 - BasisPoints(spent, budget) * budget) < budget
    ensures spent < 0 ==> -budget < spent * 10000 - BasisPoints(spent, budget) * budget <= 0
  {
    var n := spent * 10000;
    var q := TruncDiv(n, budget);
    if n >= 0 {
      assert n == n / budget * budget + n % budget;
      assert (q + 1) * budget == q * budget + budget;
    } else {
      assert -n == (-n) / budget * budget + (-n) % budget;
      assert q * budget == -((-n) / budget * budget);
      assert -spent * 10000 == -n;
    }
  }

  // ----- the report -----

  /** The last budget row of a category counts. */
  function LastBudget(budgets: seq<Budget>, c: string): Option<int> {
    if budgets == [] then None
    else if Link(budgets[|budgets| - 1].categoryId) == Some(c) then Some(budgets[|budgets| - 1].amount)
    else LastBudget(budgets[..|budgets| - 1], c)
  }

  function ProgressOf(cats: seq<Category>, budgets: seq<Budget>, spending: seq<Spending>, c: Category): Progress {
    var budget, spent := LastBudget(budgets, c.id), PlainSum(cats, spending, c.id);
    Progress(c.id, c.name, c.systemKey, budget, spent,
             if budget.None? then None else Some(budget.value - spent),
             if budget.None? then None else Some(BasisPoints(spent, budget.value)))
  }

  predicate Relevant(cats: seq<Category>, budgets: seq<Budget>, spending: seq<Spending>, c: Category) {
    LastBudget(budgets, c.id).Some? || PlainSum(cats, spending, c.id) > 0
  }

  /** Exactly the budgeted or spent categories of a prefix of the list, in list order. */
  function Report(cats: seq<Category>, budgets: seq<Budget>, spending: seq<Spending>, upTo: nat): seq<Progress>
    requires upTo <= |cats|
  {
    if upTo == 0 then []
    else
      var init := Report(cats, budgets, spending, upTo - 1);
      if Relevant(cats, budgets, spending, cats[upTo - 1]) then init + [ProgressOf(cats, budgets, spending, cats[upTo - 1])] else init
  }

  /** The row at k is the last budget of the category. */
  predicate IsLastBudget(budgets: seq<Budget>, c: string, k: int) {
    0 <= k < |budgets| && Link(budgets[k].categoryId) == Some(c)
    && forall j :: k < j < |budgets| ==> Link(budgets[j].categoryId) != Some(c)
  }

  lemma {:induction false} LastBudgetExactly(budgets: seq<Budget>, c: string)
    ensures LastBudget(budgets, c).None? <==> forall k :: 0 <= k < |budgets| ==> Link(budgets[k].categoryId) != Some(c)
    ensures forall k :: IsLastBudget(budgets, c, k) ==> LastBudget(budgets, c) == Some(budgets[k].amount)
    ensures LastBudget(budgets, c).Some? ==> exists k :: IsLastBudget(budgets, c, k)
  {
    if budgets != [] {
      var init, last := budgets[..|budgets| - 1], |budgets| - 1;
      LastBudgetExactly(init, c);
      if Link(budgets[last].categoryId) == Some(c) {
        assert IsLastBudget(budgets, c, last);
      } else {
        forall k | IsLastBudget(budgets, c, k) ensures IsLastBudget(init, c, k) {
        }
        if LastBudget(init, c).Some? {
          var k :| IsLastBudget(init, c, k);
          assert IsLastBudget(budgets, c, k);
        }
      }
    }
  }

  /**
   An entry tells the category's name and key, its plain sum and, if it has a budget row, the last one's amount, what is left
   of it, and the share of it spent in hundredths of a percent, rounded half up (toward zero below nothing, 0 without a budget).
   */
  ghost predicate Tells(p: Progress, cats: seq<Category>, budgets: seq<Budget>, spending: seq<Spending>, c: Category) {
    && p.categoryId == c.id && p.name == c.name && p.systemKey == c.systemKey && p.spent == PlainSum(cats, spending, c.id)
    && (if forall k :: 0 <= k < |budgets| ==> Link(budgets[k].categoryId) != Some(c.id) then
          p.budget.None? && p.remaining.None? && p.basisPoints.None?
        else
          exists k :: IsLastBudget(budgets, c.id, k)
                      && var amount := budgets[k].amount;
                         && p.budget == Some(amount) && p.remaining == Some(amount - p.spent) && p.basisPoints.Some?
                         && var over := p.spent * 10000 - p.basisPoints.value * amount;
                            && (amount <= 0 ==> p.basisPoints == Some(0))
                            && (amount > 0 && p.spent >= 0 ==> -amount <= 2 * over < amount)
                            && (amount > 0 && p.spent < 0 ==> -amount < over <= 0))
  }

  lemma EntryTells(cats: seq<Category>, budgets: seq<Budget>, spending: seq<Spending>, c: Category)
    ensures Tells(ProgressOf(cats, budgets, spending, c), cats, budgets, spending, c)
    ensures Relevant(cats, budgets, spending, c)
            <==> (exists k :: 0 <= k < |budgets| && Link(budgets[k].categoryId) == Some(c.id)) || PlainSum(cats, spending, c.id) > 0
  {
    hide PlainSum, TruncDiv, TruncMod, BasisPoints;
    LastBudgetExactly(budgets, c.id);
    var p := ProgressOf(cats, budgets, spending, c);
    if p.budget.Some? {
      if p.budget.value > 0 {
        PercentageExactly(p.spent, p.budget.value);
      } else {
        NoShare(p.spent, p.budget.value);
      }
      var k :| IsLastBudget(budgets, c.id, k);
      assert budgets[k].amount == p.budget.value;
    }
  }

  lemma NoShare(spent: int, budget: int)
    requires budget <= 0
    ensures BasisPoints(spent, budget) == 0
  {
  }

  class Calculator {
    const cats: seq<Category>
    const spending: seq<Spending>
    var childIds: map<string, seq<string>>
    var ownSpent: map<string, int>
    var totalSpent: map<string, int>          // the memo

    constructor (cats: seq<Category>, spending: seq<Spending>)
      ensures this.cats == cats && this.spending == spending
      ensures childIds == map[] && ownSpent == map[] && totalSpent == map[]
    {
      this.cats, this.spending := cats, spending;
      childIds, ownSpent, totalSpent := map[], map[], map[];
    }

    function Kids(c: string): seq<string>
      reads this
    {
      if c in childIds then childIds[c] else []
    }

    function OwnOf(c: string): int
      reads this
    {
      if c in ownSpent then ownSpent[c] else 0
    }

    ghost predicate Indexed()
      reads this
    {
      (forall c :: Kids(c) == Children(cats, c)) && (forall c :: OwnOf(c) == Own(spending, c))
    }

    /** Whatever the memo holds is right. */
    ghost predicate MemoRight()
      reads this
    {
      forall c :: c in totalSpent ==> totalSpent[c] == PlainSum(cats, spending, c)
    }

    method IndexChildren()
      modifies this`childIds
      requires childIds == map[]
      ensures forall c :: Kids(c) == Children(cats, c)
    {
      var i := 0;
      while i < |cats|
        invariant 0 <= i <= |cats|
        invariant forall c :: Kids(c) == Children(cats[..i], c)
      {
        assert cats[..i + 1][..i] == cats[..i];
        var parent := Link(cats[i].parent);
        if parent.Some? {
          childIds := childIds[parent.value := Kids(parent.value) + [cats[i].id]];
        }
        i := i + 1;
      }
      assert cats[..i] == cats;
    }

    method IndexSpending()
      modifies this`ownSpent
      requires ownSpent == map[]
      ensures forall c :: OwnOf(c) == Own(spending, c)
    {
      var i := 0;
      while i < |spending|
        invariant 0 <= i <= |spending|
        invariant forall c :: OwnOf(c) == Own(spending[..i], c)
      {
        assert spending[..i + 1][..i] == spending[..i];
        var row := spending[i];
        ownSpent := ownSpent[row.categoryId := OwnOf(row.categoryId) + row.amount];
        i := i + 1;
      }
      assert spending[..i] == spending;
    }

    /** The memoised recursion; it ends because each child lies deeper in an acyclic list. */
    method GetTotalSpent(c: string) returns (total: int)
      requires WellFormed(cats) && Indexed() && MemoRight()
      modifies this`totalSpent
      ensures total == PlainSum(cats, spending, c)
      ensures Indexed() && MemoRight()
      decreases |cats| + 1 - Depth(cats, c, |cats| + 1)
    {
      hide WellFormed, IsUnder, PlainSum, SumOver, Children, Own;
      if c in totalSpent {
        return totalSpent[c];
      }
      var kids := Kids(c);
      total := OwnOf(c);
      SumOverNone(cats, spending);
      var i := 0;
      while i < |kids|
        invariant 0 <= i <= |kids| && kids == Children(cats, c)
        invariant total == Own(spending, c) + SumOver(cats, spending, kids[..i])
        invariant Indexed() && MemoRight()
      {
        KidDeeper(cats, kids[i], c);
        var childTotal := GetTotalSpent(kids[i]);
        SumOverNext(cats, spending, kids, i);
        total := total + childTotal;
        i := i + 1;
      }
      assert kids[..i] == kids;
      RollUp(cats, spending, c);
      totalSpent := totalSpent[c := total];
    }

    /** The listed categories that have a budget or spending. */
    method RelevantIds(budgets: seq<Budget>, amounts: map<string, int>) returns (relevant: set<string>)
      requires WellFormed(cats) && Indexed() && MemoRight() && Holds(amounts, budgets)
      modifies this`totalSpent
      ensures Indexed() && MemoRight()
      ensures relevant == RelevantUpTo(cats, budgets, spending, |cats|)
    {
      hide WellFormed, PlainSum, Children, Own, LastBudget;
      relevant := {};
      var i := 0;
      while i < |cats|
        invariant 0 <= i <= |cats| && Indexed() && MemoRight()
        invariant relevant == RelevantUpTo(cats, budgets, spending, i)
      {
        var spent := GetTotalSpent(cats[i].id);
        if cats[i].id in amounts || spent > 0 {
          relevant := relevant + {cats[i].id};
        }
        i := i + 1;
      }
      i := 0;
      while i < |budgets|
        invariant 0 <= i <= |budgets| && Indexed() && MemoRight()
        invariant relevant == RelevantUpTo(cats, budgets, spending, |cats|)
      {
        var id := Link(budgets[i].categoryId);
        if id.Some? && id.value in Ids(cats) {
          BudgetedIsRelevant(cats, budgets, spending, i);
          relevant := relevant + {id.value};
        }
        i := i + 1;
      }
    }

    /** The report: the relevant categories in list order, each with its plain sum. */
    method Calculate(budgets: seq<Budget>) returns (report: seq<Progress>)
      requires WellFormed(cats) && childIds == map[] && ownSpent == map[] && totalSpent == map[]
      modifies this
      ensures report == Report(cats, budgets, spending, |cats|)
    {
      hide WellFormed, PlainSum, Children, Own, BasisPoints, LastBudget, RelevantUpTo;
      IndexChildren();
      IndexSpending();
      var amounts := IndexBudgets(budgets);
      var relevant := RelevantIds(budgets, amounts);
      report := [];
      var i := 0;
      while i < |cats|
        invariant 0 <= i <= |cats| && Indexed() && MemoRight()
        invariant report == Report(cats, budgets, spending, i)
      {
        var c := cats[i];
        RelevantAt(cats, budgets, spending, i);
        if c.id in relevant {
          var budget := if c.id in amounts then Some(amounts[c.id]) else None;
          var spent := GetTotalSpent(c.id);
          var remaining, points := None, None;
          if budget.Some? {
            remaining, points := Some(budget.value - spent), Some(BasisPoints(spent, budget.value));
          }
          report := report + [Progress(c.id, c.name, c.systemKey, budget, spent, remaining, points)];
        }
        i := i + 1;
      }
    }
  }

  /** The index of budgets agrees with the last row of each category. */
  ghost predicate Holds(amounts: map<string, int>, budgets: seq<Budget>) {
    forall c :: (if c in amounts then Some(amounts[c]) else None) == LastBudget(budgets, c)
  }

  ghost function RelevantUpTo(cats: seq<Category>, budgets: seq<Budget>, spending: seq<Spending>, n: nat): set<string>
    requires n <= |cats|
  {
    set i | 0 <= i < n && Relevant(cats, budgets, spending, cats[i]) :: cats[i].id
  }

  lemma {:induction false} Budgeted(budgets: seq<Budget>, i: nat)
    requires i < |budgets| && Link(budgets[i].categoryId).Some?
    ensures LastBudget(budgets, Link(budgets[i].categoryId).value).Some?
  {
    if i < |budgets| - 1 {
      Budgeted(budgets[..|budgets| - 1], i);
    }
  }

  lemma BudgetedIsRelevant(cats: seq<Category>, budgets: seq<Budget>, spending: seq<Spending>, i: nat)
    requires i < |budgets| && Link(budgets[i].categoryId).Some? && Link(budgets[i].categoryId).value in Ids(cats)
    ensures Link(budgets[i].categoryId).value in RelevantUpTo(cats, budgets, spending, |cats|)
  {
    hide PlainSum, LastBudget;
    Budgeted(budgets, i);
    var j :| 0 <= j < |Ids(cats)| && Ids(cats)[j] == Link(budgets[i].categoryId).value;
    assert Relevant(cats, budgets, spending, cats[j]);
  }

  lemma RelevantAt(cats: seq<Category>, budgets: seq<Budget>, spending: seq<Spending>, i: nat)
    requires i < |cats|
    ensures cats[i].id in RelevantUpTo(cats, budgets, spending, |cats|) <==> Relevant(cats, budgets, spending, cats[i])
  {
    hide PlainSum, LastBudget;
    if j :| 0 <= j < |cats| && Relevant(cats, budgets, spending, cats[j]) && cats[j].id == cats[i].id {
      assert Relevant(cats, budgets, spending, cats[i]);
    }
  }

  method IndexBudgets(budgets: seq<Budget>) returns (amounts: map<string, int>)
    ensures Holds(amounts, budgets)
  {
    amounts := map[];
    var i := 0;
    while i < |budgets|
      invariant 0 <= i <= |budgets|
      invariant Holds(amounts, budgets[..i])
    {
      assert budgets[..i + 1][..i] == budgets[..i];
      var id := Link(budgets[i].categoryId);
      if id.Some? {
        amounts := amounts[id.value := budgets[i].amount];
      }
      i := i + 1;
    }
    assert budgets[..i] == budgets;
  }

  lemma KidDeeper(cats: seq<Category>, k: string, c: string)
    requires WellFormed(cats) && k in Children(cats, c)
    ensures Depth(cats, k, |cats| + 1) == Depth(cats, c, |cats| + 1) + 1
  {
    hide Depth, Children;
    ChildLinks(cats, k, c);
    assert Up(cats, k, 1) == Up(cats, c, 0);
    DepthUp(cats, k, 1);
  }

  lemma SumOverNext(cats: seq<Category>, spending: seq<Spending>, ids: seq<string>, i: nat)
    requires i < |ids|
    ensures SumOver(cats, spending, ids[..i + 1]) == SumOver(cats, spending, ids[..i]) + PlainSum(cats, spending, ids[i])
  {
    hide PlainSum;
    assert ids[..i + 1][..i] == ids[..i];
  }

  lemma SumOverNone(cats: seq<Category>, spending: seq<Spending>)
    ensures SumOver(cats, spending, []) == 0
  {
  }

  /** The report as a whole: which categories appear, and that each appears at its place. */
  lemma {:induction false} ReportExactly(cats: seq<Category>, budgets: seq<Budget>, spending: seq<Spending>, upTo: nat)
    requires upTo <= |cats|
    ensures forall p :: p in Report(cats, budgets, spending, upTo) <==>
              exists i :: 0 <= i < upTo && Relevant(cats, budgets, spending, cats[i]) && p == ProgressOf(cats, budgets, spending, cats[i])
    ensures |Report(cats, budgets, spending, upTo)| <= upTo
  {
    hide PlainSum, LastBudget, BasisPoints, Relevant, ProgressOf;
    if upTo > 0 {
      ReportExactly(cats, budgets, spending, upTo - 1);
    }
  }

  predicate InListOrder(cats: seq<Category>, budgets: seq<Budget>, spending: seq<Spending>, p: Progress, q: Progress) {
    exists j :: 0 <= j < |cats| && q == ProgressOf(cats, budgets, spending, cats[j])
                && exists i :: 0 <= i < j && p == ProgressOf(cats, budgets, spending, cats[i])
  }

  /** Whatever stands earlier in the report comes from an earlier category. */
  lemma {:induction false} ReportInOrder(cats: seq<Category>, budgets: seq<Budget>, spending: seq<Spending>, upTo: nat, a: nat, b: nat)
    requires upTo <= |cats| && a < b < |Report(cats, budgets, spending, upTo)|
    ensures InListOrder(cats, budgets, spending, Report(cats, budgets, spending, upTo)[a], Report(cats, budgets, spending, upTo)[b])
  {
    hide Relevant, ProgressOf;
    var r := Report(cats, budgets, spending, upTo);
    var init := Report(cats, budgets, spending, upTo - 1);
    if b < |init| {
      ReportInOrder(cats, budgets, spending, upTo - 1, a, b);
    } else {
      ReportExactly(cats, budgets, spending, upTo - 1);
      assert r[a] == init[a] && init[a] in init;
    }
  }
}
