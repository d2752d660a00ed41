/** The round-robin assignment of approvers to seeded employees. */
module SeedAssignments {
  import opened Prelude

  datatype Role = PM | TD | HR | OPS | EMP | Other(name: string)

  datatype Employee = Employee(id: int, role: Role, admin: bool)

  datatype ChainRow = ChainRow(employee: int, step: int, approver: int)

  // ----- picking one approver -----

  /** A pool read from position `i` on, wrapping around. */
  function Rotated(pool: seq<int>, i: nat): (r: seq<int>)
    ensures |r| == |pool|
  {
    seq(|pool|, k requires 0 <= k < |pool| => pool[(i + k) % |pool|])
  }

  /** Everybody the pools offer, in the order they are tried. */
  function Candidates(pools: seq<seq<int>>, i: nat): seq<int> {
    if pools == [] then [] else Candidates(pools[..|pools| - 1], i) + Rotated(pools[|pools| - 1], i)
  }

  predicate Fits(candidate: int, self: int, avoid: Option<int>) {
    candidate != self && avoid != Some(candidate)
  }

  function FirstFit(s: seq<int>, self: int, avoid: Option<int>): Option<int> {
    if s == [] then None
    else if Fits(s[0], self, avoid) then Some(s[0])
    else FirstFit(s[1..], self, avoid)
  }

  /** First without `avoid`, then with it. */
  function Pick(self: int, i: nat, pools: seq<seq<int>>, avoid: Option<int>): Option<int> {
    var first := FirstFit(Candidates(pools, i), self, avoid);
    if first.Some? then first else FirstFit(Candidates(pools, i), self, None)
  }

  predicate Offers(pools: seq<seq<int>>, x: int) {
    exists p :: 0 <= p < |pools| && x in pools[p]
  }

  lemma RotatedOffersAll(pool: seq<int>, i: nat, x: int)
    ensures x in Rotated(pool, i) <==> x in pool
  {
    if x in pool {
      var j :| 0 <= j < |pool| && pool[j] == x;
      var n, turns := |pool|, i / |pool|;
      var k := if j >= i % n then j - i % n else j - i % n + n;
      assert i + k == n * turns + j || i + k == n * (turns + 1) + j;
      DivModUnique(i + k, n, if j >= i % n then turns else turns + 1, j);
      assert Rotated(pool, i)[k] == x;
    }
  }

  lemma {:induction false} CandidatesAreOffered(pools: seq<seq<int>>, i: nat, x: int)
    ensures x in Candidates(pools, i) <==> Offers(pools, x)
  {
    if pools != [] {
      var last := |pools| - 1;
      CandidatesAreOffered(pools[..last], i, x);
      RotatedOffersAll(pools[last], i, x);
      OffersSplit(pools, x);
    }
  }

  lemma OffersSplit(pools: seq<seq<int>>, x: int)
    requires pools != []
    ensures Offers(pools, x) <==> Offers(pools[..|pools| - 1], x) || x in pools[|pools| - 1]
  {
  }

  lemma {:induction false} FirstFitFits(s: seq<int>, self: int, avoid: Option<int>)
    ensures FirstFit(s, self, avoid).Some? ==>
              FirstFit(s, self, avoid).value in s && Fits(FirstFit(s, self, avoid).value, self, avoid)
    ensures FirstFit(s, self, avoid).None? ==> forall x :: x in s ==> !Fits(x, self, avoid)
  {
    if s != [] && !Fits(s[0], self, avoid) {
      FirstFitFits(s[1..], self, avoid);
      assert s == [s[0]] + s[1..];
    }
  }

  lemma {:induction false} FirstFitSplit(a: seq<int>, x: int, b: seq<int>, self: int, avoid: Option<int>)
    requires forall k :: 0 <= k < |a| ==> !Fits(a[k], self, avoid)
    requires Fits(x, self, avoid)
    ensures FirstFit(a + [x] + b, self, avoid) == Some(x)
  {
    if a == [] {
      assert a + [x] + b == [x] + b;
    } else {
      FirstFitSplit(a[1..], x, b, self, avoid);
      assert (a + [x] + b)[1..] == a[1..] + [x] + b;
    }
  }

  /**
   * A pick is offered by the pools, is never the employee and is the avoided
   * person only if nobody else is on offer; it fails exactly when nobody but the
   * employee is.
   */
  lemma PickIsFair(self: int, i: nat, pools: seq<seq<int>>, avoid: Option<int>)
    ensures var r := Pick(self, i, pools, avoid);
            && (r.Some? ==> r.value != self && Offers(pools, r.value))
            && (r.Some? && r == avoid ==> forall x :: Offers(pools, x) ==> x == self || avoid == Some(x))
            && (r.None? <==> forall x :: Offers(pools, x) ==> x == self)
  {
    var c := Candidates(pools, i);
    FirstFitFits(c, self, avoid);
    FirstFitFits(c, self, None);
    forall x
      ensures x in c <==> Offers(pools, x)
    {
      CandidatesAreOffered(pools, i, x);
    }
  }

  /** Whose turn it is, `k` places after position `i`. */
  function Turn(pool: seq<int>, i: nat, k: nat): int
    requires pool != []
  {
    pool[(i + k) % |pool|]
  }

  /** The pool's first fitting member, counted from position `i` on. */
  predicate HasTurn(r: int, pool: seq<int>, i: nat, k: nat, self: int, avoid: Option<int>) {
    && k < |pool| && r == Turn(pool, i, k) && Fits(r, self, avoid)
    && forall j :: 0 <= j < k ==> !Fits(Turn(pool, i, j), self, avoid)
  }

  predicate NobodyBefore(pools: seq<seq<int>>, p: nat, self: int, avoid: Option<int>)
    requires p <= |pools|
  {
    forall q, x :: 0 <= q < p && x in pools[q] ==> !Fits(x, self, avoid)
  }

  /** `r` has its turn in the first pool with a fitting member. */
  ghost predicate FirstInLine(r: int, pools: seq<seq<int>>, i: nat, self: int, avoid: Option<int>) {
    exists p: nat, k: nat ::
      p < |pools| && HasTurn(r, pools[p], i, k, self, avoid) && NobodyBefore(pools, p, self, avoid)
  }

  lemma {:induction false} FirstFitIsFirst(s: seq<int>, self: int, avoid: Option<int>) returns (k: nat)
    requires FirstFit(s, self, avoid).Some?
    ensures k < |s| && FirstFit(s, self, avoid) == Some(s[k]) && Fits(s[k], self, avoid)
    ensures forall j :: 0 <= j < k ==> !Fits(s[j], self, avoid)
  {
    if Fits(s[0], self, avoid) {
      k := 0;
    } else {
      k := FirstFitIsFirst(s[1..], self, avoid);
      k := k + 1;
    }
  }

  lemma {:induction false} FirstFitOfTwo(a: seq<int>, b: seq<int>, self: int, avoid: Option<int>)
    ensures FirstFit(a + b, self, avoid)
            == if FirstFit(a, self, avoid).Some? then FirstFit(a, self, avoid) else FirstFit(b, self, avoid)
  {
    if a == [] {
      assert a + b == b;
    } else {
      assert (a + b)[1..] == a[1..] + b;
      FirstFitOfTwo(a[1..], b, self, avoid);
    }
  }

  lemma LineGrows(r: int, pools: seq<seq<int>>, i: nat, self: int, avoid: Option<int>)
    requires pools != [] && FirstInLine(r, pools[..|pools| - 1], i, self, avoid)
    ensures FirstInLine(r, pools, i, self, avoid)
  {
    var fewer := pools[..|pools| - 1];
    var p: nat, k: nat :| p < |fewer| && HasTurn(r, fewer[p], i, k, self, avoid) && NobodyBefore(fewer, p, self, avoid);
    assert fewer[p] == pools[p] && forall q :: 0 <= q < p ==> fewer[q] == pools[q];
    assert NobodyBefore(pools, p, self, avoid);
  }

  lemma LastInLine(pools: seq<seq<int>>, i: nat, self: int, avoid: Option<int>)
    requires pools != []
    requires FirstFit(Candidates(pools[..|pools| - 1], i), self, avoid).None?
    requires FirstFit(Rotated(pools[|pools| - 1], i), self, avoid).Some?
    ensures FirstInLine(FirstFit(Rotated(pools[|pools| - 1], i), self, avoid).value, pools, i, self, avoid)
  {
    var last := |pools| - 1;
    var turns := Rotated(pools[last], i);
    var k := FirstFitIsFirst(turns, self, avoid);
    FirstFitFits(Candidates(pools[..last], i), self, avoid);
    assert forall j :: 0 <= j < |turns| ==> turns[j] == Turn(pools[last], i, j);
    hide FirstFit, Rotated, Turn;
    assert HasTurn(turns[k], pools[last], i, k, self, avoid);
    forall q, x | 0 <= q < last && x in pools[q]
      ensures !Fits(x, self, avoid)
    {
      assert x in pools[..last][q];
      CandidatesAreOffered(pools[..last], i, x);
    }
    assert NobodyBefore(pools, last, self, avoid);
  }

  /** Trying the pools in order finds the first pool's turn. */
  lemma {:induction false} CandidatesInLine(pools: seq<seq<int>>, i: nat, self: int, avoid: Option<int>)
    requires FirstFit(Candidates(pools, i), self, avoid).Some?
    ensures FirstInLine(FirstFit(Candidates(pools, i), self, avoid).value, pools, i, self, avoid)
  {
    var last := |pools| - 1;
    FirstFitOfTwo(Candidates(pools[..last], i), Rotated(pools[last], i), self, avoid);
    hide FirstInLine, Rotated;
    if FirstFit(Candidates(pools[..last], i), self, avoid).Some? {
      CandidatesInLine(pools[..last], i, self, avoid);
      LineGrows(FirstFit(Candidates(pools[..last], i), self, avoid).value, pools, i, self, avoid);
    } else {
      LastInLine(pools, i, self, avoid);
    }
  }

  /** The picked one is first in line, the avoided person only if nobody else is. */
  ghost predicate PickedFrom(r: int, pools: seq<seq<int>>, i: nat, self: int, avoid: Option<int>) {
    if exists x :: Offers(pools, x) && Fits(x, self, avoid) then FirstInLine(r, pools, i, self, avoid)
    else FirstInLine(r, pools, i, self, None)
  }

  /**
   * Who exactly is picked: the one whose turn it is in the first pool that has
   * anybody besides the employee and the avoided person; if no pool has, the same
   * without avoiding anybody.
   */
  lemma PickIsFirstInLine(self: int, i: nat, pools: seq<seq<int>>, avoid: Option<int>)
    ensures var r := Pick(self, i, pools, avoid);
            r.Some? ==> PickedFrom(r.value, pools, i, self, avoid)
  {
    var c := Candidates(pools, i);
    FirstFitFits(c, self, avoid);
    forall x
      ensures x in c <==> Offers(pools, x)
    {
      CandidatesAreOffered(pools, i, x);
    }
    if FirstFit(c, self, avoid).Some? {
      CandidatesInLine(pools, i, self, avoid);
    } else if FirstFit(c, self, None).Some? {
      CandidatesInLine(pools, i, self, None);
    }
  }

  predicate NoneFits(s: seq<int>, self: int, avoid: Option<int>) {
    forall m :: 0 <= m < |s| ==> !Fits(s[m], self, avoid)
  }

  /** The first candidate that fits is the `k`-th of the `p`-th pool. */
  lemma FoundAt(pools: seq<seq<int>>, p: nat, k: nat, i: nat, self: int, avoid: Option<int>)
    requires p < |pools| && k < |pools[p]|
    requires NoneFits(Candidates(pools[..p], i), self, avoid) && NoneFits(Rotated(pools[p], i)[..k], self, avoid)
    requires Fits(Rotated(pools[p], i)[k], self, avoid)
    ensures FirstFit(Candidates(pools, i), self, avoid) == Some(Rotated(pools[p], i)[k])
  {
    var before, rotated, after := Candidates(pools[..p], i), Rotated(pools[p], i), CandidatesAfter(pools, p, i);
    assert rotated == rotated[..k] + [rotated[k]] + rotated[k + 1..];
    assert before + rotated + after == (before + rotated[..k]) + [rotated[k]] + (rotated[k + 1..] + after);
    FirstFitSplit(before + rotated[..k], rotated[k], rotated[k + 1..] + after, self, avoid);
  }

  lemma NothingOffered(i: nat, self: int, avoid: Option<int>)
    ensures NoneFits(Candidates([], i), self, avoid)
  {
  }

  lemma RotatedAt(pool: seq<int>, i: nat, k: nat)
    requires k < |pool|
    ensures Rotated(pool, i)[k] == pool[(i + k) % |pool|]
  {
  }

  lemma OnePoolMore(pools: seq<seq<int>>, p: nat, i: nat, self: int, avoid: Option<int>)
    requires p < |pools|
    requires NoneFits(Candidates(pools[..p], i), self, avoid) && NoneFits(Rotated(pools[p], i), self, avoid)
    ensures NoneFits(Candidates(pools[..p + 1], i), self, avoid)
  {
    assert pools[..p + 1][..p] == pools[..p];
  }

  lemma NobodyFits(s: seq<int>, self: int, avoid: Option<int>)
    requires NoneFits(s, self, avoid)
    ensures FirstFit(s, self, avoid).None?
  {
    FirstFitFits(s, self, avoid);
  }

  /** The loop over one pool, from position `i` on. */
  method SearchPool(self: int, i: nat, pool: seq<int>, shunned: Option<int>) returns (r: Option<nat>)
    ensures r.None? ==> NoneFits(Rotated(pool, i), self, shunned)
    ensures r.Some? ==> r.value < |pool| && Fits(Rotated(pool, i)[r.value], self, shunned)
                        && NoneFits(Rotated(pool, i)[..r.value], self, shunned)
  {
    for k := 0 to |pool|
      invariant NoneFits(Rotated(pool, i)[..k], self, shunned)
    {
      var candidate := pool[(i + k) % |pool|];
      assert candidate == Rotated(pool, i)[k];
      if Fits(candidate, self, shunned) {
        return Some(k);
      }
    }
    assert Rotated(pool, i)[..|pool|] == Rotated(pool, i);
    return None;
  }

  /** One pass over the pools. */
  method PassByLoops(self: int, i: nat, pools: seq<seq<int>>, shunned: Option<int>) returns (r: Option<int>)
    ensures r == FirstFit(Candidates(pools, i), self, shunned)
  {
    hide Candidates, Rotated, NoneFits, Fits, FirstFit;
    NothingOffered(i, self, shunned);
    assert pools[..0] == [];
    for p := 0 to |pools|
      invariant NoneFits(Candidates(pools[..p], i), self, shunned)
    {
      var k := SearchPool(self, i, pools[p], shunned);
      if k.Some? {
        FoundAt(pools, p, k.value, i, self, shunned);
        var candidate := pools[p][(i + k.value) % |pools[p]|];
        RotatedAt(pools[p], i, k.value);
        return Some(candidate);
      }
      OnePoolMore(pools, p, i, self, shunned);
    }
    assert pools[..|pools|] == pools;
    NobodyFits(Candidates(pools, i), self, shunned);
    return None;
  }

  /** The nested loops find the pick. */
  method PickByLoops(self: int, i: nat, pools: seq<seq<int>>, avoid: Option<int>) returns (r: Option<int>)
    ensures r == Pick(self, i, pools, avoid)
  {
    r := None;
    for pass := 0 to 2
      invariant r.None? && (pass >= 1 ==> FirstFit(Candidates(pools, i), self, avoid).None?)
      invariant pass >= 2 ==> FirstFit(Candidates(pools, i), self, None).None?
    {
      r := PassByLoops(self, i, pools, if pass == 0 then avoid else None);
      if r.Some? {
        return;
      }
    }
  }

  /** What the pools after the `p`-th one offer. */
  ghost function CandidatesAfter(pools: seq<seq<int>>, p: nat, i: nat): (rest: seq<int>)
    requires p < |pools|
    ensures Candidates(pools, i) == Candidates(pools[..p], i) + Rotated(pools[p], i) + rest
  {
    if p == |pools| - 1 then []
    else
      var last := |pools| - 1;
      assert pools[..last][..p] == pools[..p];
      CandidatesAfter(pools[..last], p, i) + Rotated(pools[last], i)
  }

  // ----- assigning everybody -----

  function InsertById(e: Employee, s: seq<Employee>): (r: seq<Employee>)
    ensures multiset(r) == multiset(s) + multiset{e}
  {
    if s == [] || e.id < s[0].id then [e] + s
    else
      assert s == [s[0]] + s[1..];
      [s[0]] + InsertById(e, s[1..])
  }

  function SortById(s: seq<Employee>): (r: seq<Employee>)
    ensures multiset(r) == multiset(s)
  {
    if s == [] then []
    else
      assert s == s[..|s| - 1] + [s[|s| - 1]];
      InsertById(s[|s| - 1], SortById(s[..|s| - 1]))
  }

  /** The employees that get a chain, ordered by id; the system administrator does not. */
  function ActiveOf(employees: seq<Employee>): seq<Employee> {
    SortById(Filter((e: Employee) => !e.admin, employees))
  }

  predicate DistinctIds(s: seq<Employee>) {
    forall i, j :: 0 <= i < j < |s| ==> s[i].id != s[j].id
  }

  function IdsOf(active: seq<Employee>, role: Role): seq<int> {
    if active == [] then []
    else
      var last := |active| - 1;
      var earlier := IdsOf(active[..last], role);
      if active[last].role == role then earlier + [active[last].id] else earlier
  }

  predicate HasRole(active: seq<Employee>, id: int, role: Role) {
    exists k :: 0 <= k < |active| && active[k].id == id && active[k].role == role
  }

  lemma {:induction false} IdsHaveTheRole(active: seq<Employee>, role: Role, id: int)
    ensures id in IdsOf(active, role) <==> HasRole(active, id, role)
  {
    if active != [] {
      var last := |active| - 1;
      IdsHaveTheRole(active[..last], role, id);
      if HasRole(active[..last], id, role) {
        var k :| 0 <= k < last && active[..last][k].id == id && active[..last][k].role == role;
        assert active[k].id == id && active[k].role == role;
      }
      assert forall k :: 0 <= k < last ==> active[..last][k] == active[k];
    }
  }

  datatype Pools = Pools(pm: seq<int>, td: seq<int>, hr: seq<int>)

  function PoolsOf(active: seq<Employee>): Pools {
    Pools(IdsOf(active, PM), IdsOf(active, TD), IdsOf(active, HR))
  }

  function L1Pools(role: Role, p: Pools): seq<seq<int>> {
    match role
    case PM => [p.td, p.hr, p.pm]
    case TD => [p.hr, p.td, p.pm]
    case OPS => [p.hr, p.td, p.pm]
    case HR => [p.hr, p.td, p.pm]
    case EMP => [p.pm, p.td, p.hr]
    case Other(_) => [p.pm, p.td, p.hr]
  }

  /** Only employees and project managers have a second level. */
  function L2Pools(role: Role, p: Pools): Option<seq<seq<int>>> {
    match role
    case EMP => Some([p.td, p.pm, p.hr])
    case PM => Some([p.hr, p.td])
    case _ => None
  }

  /** The rows of one employee, the `i`-th of that role; none when a pick fails. */
  function RowsFor(e: Employee, i: nat, p: Pools): Option<seq<ChainRow>> {
    var l1 := Pick(e.id, i, L1Pools(e.role, p), None);
    if l1.None? then None
    else if L2Pools(e.role, p).None? then Some([ChainRow(e.id, 1, l1.value)])
    else
      var l2 := Pick(e.id, i, L2Pools(e.role, p).value, l1);
      if l2.None? then None else Some([ChainRow(e.id, 1, l1.value), ChainRow(e.id, 2, l2.value)])
  }

  function CountRole(s: seq<Employee>, role: Role): nat {
    if s == [] then 0
    else CountRole(s[..|s| - 1], role) + if s[|s| - 1].role == role then 1 else 0
  }

  /** The rows of the first `k` employees. */
  function AssignUpTo(active: seq<Employee>, k: nat): Option<seq<ChainRow>>
    requires k <= |active|
  {
    if k == 0 then Some([])
    else
      var earlier := AssignUpTo(active, k - 1);
      var e := active[k - 1];
      if earlier.None? then None
      else
        var rows := RowsFor(e, CountRole(active[..k - 1], e.role), PoolsOf(active));
        if rows.None? then None else Some(earlier.value + rows.value)
  }

  function AssignApprovers(employees: seq<Employee>): Option<seq<ChainRow>> {
    AssignUpTo(ActiveOf(employees), |ActiveOf(employees)|)
  }

  // ----- who approves whom -----

  /** Somebody among `active` who may approve. */
  predicate Approver(active: seq<Employee>, id: int) {
    HasRole(active, id, PM) || HasRole(active, id, TD) || HasRole(active, id, HR)
  }

  lemma OfferedAreApprovers(active: seq<Employee>, pools: seq<seq<int>>, x: int)
    requires forall p :: 0 <= p < |pools| ==>
               pools[p] == IdsOf(active, PM) || pools[p] == IdsOf(active, TD) || pools[p] == IdsOf(active, HR)
    requires Offers(pools, x)
    ensures Approver(active, x)
  {
    IdsHaveTheRole(active, PM, x);
    IdsHaveTheRole(active, TD, x);
    IdsHaveTheRole(active, HR, x);
  }

  /** One L1 row, and an L2 row exactly for employees and project managers; all of them proper. */
  predicate GoodRows(active: seq<Employee>, e: Employee, rows: seq<ChainRow>) {
    && |rows| == (if e.role == EMP || e.role == PM then 2 else 1)
    && (forall n :: 0 <= n < |rows| ==>
          && rows[n].employee == e.id && rows[n].step == n + 1
          && rows[n].approver != e.id && Approver(active, rows[n].approver))
  }

  /** The second level repeats the first only when its pools offer nobody else. */
  ghost predicate RepeatsOnlyIfForced(active: seq<Employee>, e: Employee, rows: seq<ChainRow>) {
    |rows| == 2 && rows[0].approver == rows[1].approver && L2Pools(e.role, PoolsOf(active)).Some? ==>
      forall x :: Offers(L2Pools(e.role, PoolsOf(active)).value, x) ==> x == e.id || x == rows[0].approver
  }

  /** A pool list of this role has nobody but the employee. */
  ghost predicate Stuck(active: seq<Employee>, e: Employee) {
    || (forall x :: Offers(L1Pools(e.role, PoolsOf(active)), x) ==> x == e.id)
    || (L2Pools(e.role, PoolsOf(active)).Some?
        && forall x :: Offers(L2Pools(e.role, PoolsOf(active)).value, x) ==> x == e.id)
  }

  lemma L1IsGood(active: seq<Employee>, e: Employee, i: nat)
    ensures var pools := L1Pools(e.role, PoolsOf(active));
            var l1 := Pick(e.id, i, pools, None);
            && (l1.None? <==> forall x :: Offers(pools, x) ==> x == e.id)
            && (l1.Some? ==> l1.value != e.id && Approver(active, l1.value))
  {
    var pools := L1Pools(e.role, PoolsOf(active));
    var l1 := Pick(e.id, i, pools, None);
    PickIsFair(e.id, i, pools, None);
    if l1.Some? {
      OfferedAreApprovers(active, pools, l1.value);
    }
  }

  lemma L2IsGood(active: seq<Employee>, e: Employee, i: nat, l1: int)
    requires L2Pools(e.role, PoolsOf(active)).Some?
    ensures var pools := L2Pools(e.role, PoolsOf(active)).value;
            var l2 := Pick(e.id, i, pools, Some(l1));
            && (l2.None? <==> forall x :: Offers(pools, x) ==> x == e.id)
            && (l2.Some? ==> l2.value != e.id && Approver(active, l2.value))
            && (l2 == Some(l1) ==> forall x :: Offers(pools, x) ==> x == e.id || x == l1)
  {
    var pools := L2Pools(e.role, PoolsOf(active)).value;
    var l2 := Pick(e.id, i, pools, Some(l1));
    PickIsFair(e.id, i, pools, Some(l1));
    if l2.Some? {
      OfferedAreApprovers(active, pools, l2.value);
    }
  }

  lemma RowsForIsGood(active: seq<Employee>, e: Employee, i: nat)
    ensures RowsFor(e, i, PoolsOf(active)).None? <==> Stuck(active, e)
    ensures RowsFor(e, i, PoolsOf(active)).Some? ==>
              && GoodRows(active, e, RowsFor(e, i, PoolsOf(active)).value)
              && RepeatsOnlyIfForced(active, e, RowsFor(e, i, PoolsOf(active)).value)
  {
    var p := PoolsOf(active);
    L1IsGood(active, e, i);
    var l1 := Pick(e.id, i, L1Pools(e.role, p), None);
    if l1.Some? && L2Pools(e.role, p).Some? {
      L2IsGood(active, e, i, l1.value);
    }
    hide Pick, Offers, Approver, PoolsOf;
  }

  /** In which order the roles are asked, level by level. */
  ghost function AskedAtL1(e: Employee, active: seq<Employee>): seq<seq<int>> {
    var (pm, td, hr) := (IdsOf(active, PM), IdsOf(active, TD), IdsOf(active, HR));
    if e.role == PM then [td, hr, pm]
    else if e.role in {TD, OPS, HR} then [hr, td, pm]
    else [pm, td, hr]
  }

  ghost function AskedAtL2(e: Employee, active: seq<Employee>): seq<seq<int>> {
    var (pm, td, hr) := (IdsOf(active, PM), IdsOf(active, TD), IdsOf(active, HR));
    if e.role == EMP then [td, pm, hr] else [hr, td]
  }

  /** The org table: who exactly approves for the `i`-th of a role, the second level avoiding the first. */
  ghost predicate AsTheTableSays(active: seq<Employee>, e: Employee, i: nat, rows: seq<ChainRow>) {
    && |rows| == (if e.role == EMP || e.role == PM then 2 else 1)
    && PickedFrom(rows[0].approver, AskedAtL1(e, active), i, e.id, None)
    && (|rows| == 2 ==> PickedFrom(rows[1].approver, AskedAtL2(e, active), i, e.id, Some(rows[0].approver)))
  }

  lemma RolesDecide(active: seq<Employee>, e: Employee, i: nat)
    requires RowsFor(e, i, PoolsOf(active)).Some?
    ensures AsTheTableSays(active, e, i, RowsFor(e, i, PoolsOf(active)).value)
  {
    var p := PoolsOf(active);
    var l1 := Pick(e.id, i, L1Pools(e.role, p), None);
    PickIsFirstInLine(e.id, i, L1Pools(e.role, p), None);
    assert L1Pools(e.role, p) == AskedAtL1(e, active);
    if L2Pools(e.role, p).Some? {
      PickIsFirstInLine(e.id, i, L2Pools(e.role, p).value, l1);
      assert L2Pools(e.role, p).value == AskedAtL2(e, active);
    }
    hide Pick, FirstInLine, Offers, IdsOf, AskedAtL1, AskedAtL2, L1Pools;
  }

  /** The rows written for one employee. */
  function RowsOf(rows: seq<ChainRow>, id: int): seq<ChainRow> {
    Filter((r: ChainRow) => r.employee == id, rows)
  }

  lemma {:induction false} FilterAcross<T(!new)>(p: T -> bool, s: seq<T>, t: seq<T>)
    ensures Filter(p, s + t) == Filter(p, s) + Filter(p, t)
  {
    if s == [] {
      assert s + t == t;
    } else {
      assert (s + t)[1..] == s[1..] + t;
      FilterAcross(p, s[1..], t);
    }
  }

  lemma GoodRowsBelong(active: seq<Employee>, e: Employee, rows: seq<ChainRow>, id: int)
    requires GoodRows(active, e, rows)
    ensures RowsOf(rows, id) == if id == e.id then rows else []
  {
    var mine := (r: ChainRow) => r.employee == id;
    FilterAppend(mine, [], rows[0]);
    assert [] + [rows[0]] == [rows[0]];
    if |rows| == 2 {
      FilterAppend(mine, [rows[0]], rows[1]);
      assert rows == [rows[0]] + [rows[1]];
    } else {
      assert rows == [rows[0]];
    }
  }

  /** An employee among the first `k` has proper rows, any other none. */
  ghost predicate HasItsRows(active: seq<Employee>, k: nat, rows: seq<ChainRow>, j: nat)
    requires j < |active|
  {
    var mine := RowsOf(rows, active[j].id);
    if j < k then GoodRows(active, active[j], mine) && RepeatsOnlyIfForced(active, active[j], mine) else mine == []
  }

  ghost predicate AssignedSoFar(active: seq<Employee>, k: nat, rows: seq<ChainRow>)
    requires k <= |active|
  {
    && (forall j :: 0 <= j < |active| ==> HasItsRows(active, k, rows, j))
    && (forall n :: 0 <= n < |rows| ==> Known(active, k, rows[n]))
  }

  lemma {:induction false} AssignUpToIsGood(active: seq<Employee>, k: nat)
    requires DistinctIds(active) && k <= |active|
    ensures AssignUpTo(active, k).None? <==> exists j :: 0 <= j < k && Stuck(active, active[j])
    ensures AssignUpTo(active, k).Some? ==> AssignedSoFar(active, k, AssignUpTo(active, k).value)
  {
    if k > 0 {
      AssignUpToIsGood(active, k - 1);
      var e := active[k - 1];
      var i := CountRole(active[..k - 1], e.role);
      RowsForIsGood(active, e, i);
      hide Stuck, GoodRows, RepeatsOnlyIfForced, AssignedSoFar, RowsFor, CountRole, PoolsOf, DistinctIds;
      if AssignUpTo(active, k).Some? {
        AssignStep(active, k, AssignUpTo(active, k - 1).value, RowsFor(e, i, PoolsOf(active)).value);
      }
    }
  }

  lemma RowsAfterStep(active: seq<Employee>, k: nat, earlier: seq<ChainRow>, news: seq<ChainRow>, j: nat)
    requires DistinctIds(active) && 0 < k <= |active| && j < |active|
    requires GoodRows(active, active[k - 1], news) && RowsOf(earlier, active[k - 1].id) == []
    ensures RowsOf(earlier + news, active[j].id) == if j == k - 1 then news else RowsOf(earlier, active[j].id)
  {
    FilterAcross((r: ChainRow) => r.employee == active[j].id, earlier, news);
    GoodRowsBelong(active, active[k - 1], news, active[j].id);
  }

  predicate Known(active: seq<Employee>, k: nat, r: ChainRow)
    requires k <= |active|
  {
    exists j :: 0 <= j < k && active[j].id == r.employee
  }

  lemma KnownAfterStep(active: seq<Employee>, k: nat, earlier: seq<ChainRow>, news: seq<ChainRow>)
    requires 0 < k <= |active| && GoodRows(active, active[k - 1], news)
    requires forall n :: 0 <= n < |earlier| ==> Known(active, k - 1, earlier[n])
    ensures forall n :: 0 <= n < |earlier + news| ==> Known(active, k, (earlier + news)[n])
  {
  }

  lemma AssignStep(active: seq<Employee>, k: nat, earlier: seq<ChainRow>, news: seq<ChainRow>)
    requires DistinctIds(active) && 0 < k <= |active| && AssignedSoFar(active, k - 1, earlier)
    requires GoodRows(active, active[k - 1], news) && RepeatsOnlyIfForced(active, active[k - 1], news)
    ensures AssignedSoFar(active, k, earlier + news)
  {
    KnownAfterStep(active, k, earlier, news);
    assert HasItsRows(active, k - 1, earlier, k - 1);
    hide GoodRows, RepeatsOnlyIfForced, RowsOf, Known, DistinctIds;
    forall j | 0 <= j < |active|
      ensures HasItsRows(active, k, earlier + news, j)
    {
      assert HasItsRows(active, k - 1, earlier, j);
      RowsAfterStep(active, k, earlier, news, j);
    }
  }

  lemma {:induction false} FilterKeepsDistinctIds(p: Employee -> bool, s: seq<Employee>)
    requires DistinctIds(s)
    ensures DistinctIds(Filter(p, s))
  {
    if s != [] {
      FilterKeepsDistinctIds(p, s[1..]);
      forall i | 0 <= i < |Filter(p, s[1..])|
        ensures Filter(p, s[1..])[i].id != s[0].id
      {
        assert Filter(p, s[1..])[i] in s[1..];
      }
    }
  }

  lemma ActiveHasDistinctIds(employees: seq<Employee>)
    requires DistinctIds(employees)
    ensures DistinctIds(ActiveOf(employees))
    ensures forall e :: e in ActiveOf(employees) <==> e in employees && !e.admin
  {
    var kept := Filter((e: Employee) => !e.admin, employees);
    var id := (e: Employee) => e.id;
    FilterKeepsDistinctIds((e: Employee) => !e.admin, employees);
    forall e
      ensures e in SortById(kept) <==> e in kept
    {
      assert e in SortById(kept) <==> e in multiset(SortById(kept));
    }
    MapPermutation(id, kept, SortById(kept));
    assert Distinct(Map(id, kept));
    DistinctPermutation(Map(id, kept), Map(id, SortById(kept)));
    forall i, j | 0 <= i < j < |SortById(kept)|
      ensures SortById(kept)[i].id != SortById(kept)[j].id
    {
      assert Map(id, SortById(kept))[i] != Map(id, SortById(kept))[j];
    }
  }

  /**
   * Every non-admin employee gets exactly one L1 and at most one L2, never
   * themselves, always an active PM, TD or HR, with L2 equal to L1 only when
   * forced; the assignment fails exactly when some employee's pools hold nobody
   * else.
   */
  lemma EveryoneIsAssigned(employees: seq<Employee>)
    requires DistinctIds(employees)
    ensures AssignApprovers(employees).None?
            <==> exists e :: e in ActiveOf(employees) && Stuck(ActiveOf(employees), e)
    ensures AssignApprovers(employees).Some? ==>
              var rows, active := AssignApprovers(employees).value, ActiveOf(employees);
              && (forall e :: e in employees && !e.admin ==>
                    GoodRows(active, e, RowsOf(rows, e.id)) && RepeatsOnlyIfForced(active, e, RowsOf(rows, e.id)))
              && (forall n :: 0 <= n < |rows| ==> Known(active, |active|, rows[n]))
  {
    var active := ActiveOf(employees);
    ActiveHasDistinctIds(employees);
    AssignUpToIsGood(active, |active|);
    hide ActiveOf, AssignUpTo, Stuck, HasItsRows, Known, GoodRows, RepeatsOnlyIfForced, RowsOf;
    if AssignApprovers(employees).Some? {
      var rows := AssignApprovers(employees).value;
      forall e | e in employees && !e.admin
        ensures GoodRows(active, e, RowsOf(rows, e.id)) && RepeatsOnlyIfForced(active, e, RowsOf(rows, e.id))
      {
        assert e in active;
        var j :| 0 <= j < |active| && active[j] == e;
        OwnRows(active, rows, j);
      }
    }
  }

  lemma OwnRows(active: seq<Employee>, rows: seq<ChainRow>, j: nat)
    requires j < |active| && HasItsRows(active, |active|, rows, j)
    ensures GoodRows(active, active[j], RowsOf(rows, active[j].id))
    ensures RepeatsOnlyIfForced(active, active[j], RowsOf(rows, active[j].id))
  {
  }

  // ----- everybody's turn -----

  predicate OrderedById(s: seq<Employee>) {
    forall i, j :: 0 <= i < j < |s| ==> s[i].id <= s[j].id
  }

  lemma OrderedCons(x: Employee, rest: seq<Employee>)
    requires OrderedById(rest) && forall j :: 0 <= j < |rest| ==> x.id <= rest[j].id
    ensures OrderedById([x] + rest)
  {
  }

  lemma {:induction false} InsertKeepsOrder(e: Employee, s: seq<Employee>)
    requires OrderedById(s)
    ensures OrderedById(InsertById(e, s))
  {
    if s == [] || e.id < s[0].id {
      OrderedCons(e, s);
    } else {
      var rest := InsertById(e, s[1..]);
      InsertKeepsOrder(e, s[1..]);
      forall j | 0 <= j < |rest|
        ensures s[0].id <= rest[j].id
      {
        assert rest[j] in multiset(rest);
        assert rest[j] == e || rest[j] in s[1..];
      }
      OrderedCons(s[0], rest);
      hide OrderedById;
    }
  }

  lemma {:induction false} SortedIsOrdered(s: seq<Employee>)
    ensures OrderedById(SortById(s))
  {
    if s != [] {
      SortedIsOrdered(s[..|s| - 1]);
      InsertKeepsOrder(s[|s| - 1], SortById(s[..|s| - 1]));
      hide OrderedById;
    }
  }

  /** Each employee's rows are those of its position among the earlier ones of its role. */
  lemma {:induction false} RowsInTurn(active: seq<Employee>, k: nat, j: nat)
    requires DistinctIds(active) && j < k <= |active| && AssignUpTo(active, k).Some?
    ensures var rows := RowsFor(active[j], CountRole(active[..j], active[j].role), PoolsOf(active));
            rows.Some? && RowsOf(AssignUpTo(active, k).value, active[j].id) == rows.value
  {
    var e, i := active[k - 1], CountRole(active[..k - 1], active[k - 1].role);
    LastAssigned(active, k - 1);
    AssignUpToIsGood(active, k - 1);
    RowsForIsGood(active, e, i);
    hide RowsFor, GoodRows, AssignUpTo, CountRole, PoolsOf, RowsOf, Stuck, RepeatsOnlyIfForced, DistinctIds;
    var earlier, news := AssignUpTo(active, k - 1).value, RowsFor(e, i, PoolsOf(active)).value;
    NoRowsYet(active, k - 1, earlier);
    RowsAfterStep(active, k, earlier, news, j);
    if j < k - 1 {
      RowsInTurn(active, k - 1, j);
    }
  }

  lemma NoRowsYet(active: seq<Employee>, k: nat, earlier: seq<ChainRow>)
    requires k < |active| && AssignedSoFar(active, k, earlier)
    ensures RowsOf(earlier, active[k].id) == []
  {
    assert HasItsRows(active, k, earlier, k);
  }

  /** In order of id, everybody gets whom the table says, counting its place among its own role. */
  lemma EveryoneInTurn(employees: seq<Employee>, j: nat)
    requires DistinctIds(employees) && AssignApprovers(employees).Some? && j < |ActiveOf(employees)|
    ensures var (active, rows) := (ActiveOf(employees), AssignApprovers(employees).value);
            var e := active[j];
            AsTheTableSays(active, e, CountRole(active[..j], e.role), RowsOf(rows, e.id))
    ensures OrderedById(ActiveOf(employees))
  {
    var active := ActiveOf(employees);
    SortedIsOrdered(Filter((e: Employee) => !e.admin, employees));
    ActiveHasDistinctIds(employees);
    hide ActiveOf, RowsFor, AsTheTableSays, CountRole, PoolsOf, RowsOf, DistinctIds, AssignUpTo, OrderedById;
    RowsInTurn(active, |active|, j);
    RolesDecide(active, active[j], CountRole(active[..j], active[j].role));
  }

  // ----- how the load is shared -----

  /** How many of the indices below `n` are congruent to `j` modulo `m`. */
  function Share(n: nat, m: nat, j: nat): nat
    requires m > 0
  {
    if n == 0 then 0 else Share(n - 1, m, j) + if (n - 1) % m == j then 1 else 0
  }

  lemma StepDown(n: nat, m: nat)
    requires n > 0 && m > 0
    ensures n % m == 0 ==> (n - 1) % m == m - 1 && (n - 1) / m == n / m - 1
    ensures n % m != 0 ==> (n - 1) % m == n % m - 1 && (n - 1) / m == n / m
  {
    var q, r := n / m, n % m;
    assert n == m * q + r;
    if r == 0 {
      assert n - 1 == m * (q - 1) + (m - 1);
      DivModUnique(n - 1, m, q - 1, m - 1);
    } else {
      DivModUnique(n - 1, m, q, r - 1);
    }
  }

  /** From the quotient and remainder of one number to those of the next. */
  lemma ShareStep(share: nat, q0: int, r0: int, q: int, r: int, j: nat, m: nat)
    requires j < m && share == q0 + if j < r0 then 1 else 0
    requires if r == 0 then r0 == m - 1 && q0 == q - 1 else r0 == r - 1 && q0 == q
    ensures share + (if r0 == j then 1 else 0) == q + if j < r then 1 else 0
  {
  }

  lemma {:induction false} ShareIsEven(n: nat, m: nat, j: nat)
    requires j < m
    ensures Share(n, m, j) == n / m + if j < n % m then 1 else 0
  {
    if n > 0 {
      ShareIsEven(n - 1, m, j);
      StepDown(n, m);
      ShareStep(Share(n - 1, m, j), (n - 1) / m, (n - 1) % m, n / m, n % m, j, m);
    } else {
      DivModUnique(0, m, 0, 0);
    }
  }

  lemma {:induction false} IdsAreDistinct(active: seq<Employee>, role: Role)
    requires DistinctIds(active)
    ensures Distinct(IdsOf(active, role))
  {
    if active != [] {
      var last := |active| - 1;
      IdsAreDistinct(active[..last], role);
      IdsHaveTheRole(active[..last], role, active[last].id);
    }
  }

  /** An EMPLOYEE's L1 row naming `p`. */
  predicate Loads(active: seq<Employee>, r: ChainRow, p: int) {
    r.step == 1 && r.approver == p && HasRole(active, r.employee, EMP)
  }

  function LoadOf(active: seq<Employee>, rows: seq<ChainRow>, p: int): nat {
    |Filter((r: ChainRow) => Loads(active, r, p), rows)|
  }

  lemma OneRole(active: seq<Employee>, k: nat, role: Role)
    requires DistinctIds(active) && k < |active|
    ensures HasRole(active, active[k].id, role) <==> active[k].role == role
  {
  }

  /** The `i`-th EMPLOYEE goes to the PM whose turn it is. */
  lemma EmployeeGetsTheNextManager(active: seq<Employee>, k: nat, i: nat)
    requires DistinctIds(active) && k < |active| && active[k].role == EMP && IdsOf(active, PM) != []
    ensures var pm := IdsOf(active, PM);
            Pick(active[k].id, i, L1Pools(EMP, PoolsOf(active)), None) == Some(pm[i % |pm|])
  {
    var pm := IdsOf(active, PM);
    IdsHaveTheRole(active, PM, pm[i % |pm|]);
    OneRole(active, k, PM);
    FirstPoolFirst(active[k].id, i, L1Pools(EMP, PoolsOf(active)));
  }

  /** The one whose turn it is in the first pool is picked, unless it is the employee. */
  lemma FirstPoolFirst(self: int, i: nat, pools: seq<seq<int>>)
    requires pools != [] && pools[0] != [] && pools[0][i % |pools[0]|] != self
    ensures Pick(self, i, pools, None) == Some(pools[0][i % |pools[0]|])
  {
    assert Rotated(pools[0], i)[0] == pools[0][i % |pools[0]|];
    assert Candidates(pools[..0], i) == [] && Rotated(pools[0], i)[..0] == [];
    FoundAt(pools, 0, 0, i, self, None);
  }

  lemma LastAssigned(active: seq<Employee>, k: nat)
    requires k < |active| && AssignUpTo(active, k + 1).Some?
    ensures AssignUpTo(active, k).Some?
    ensures RowsFor(active[k], CountRole(active[..k], active[k].role), PoolsOf(active)).Some?
    ensures AssignUpTo(active, k + 1).value
            == AssignUpTo(active, k).value
               + RowsFor(active[k], CountRole(active[..k], active[k].role), PoolsOf(active)).value
    ensures CountRole(active[..k + 1], EMP) == CountRole(active[..k], EMP) + if active[k].role == EMP then 1 else 0
  {
    assert active[..k + 1][..k] == active[..k];
  }

  lemma {:induction false} LoadSoFar(active: seq<Employee>, k: nat, j: nat)
    requires DistinctIds(active) && k <= |active| && AssignUpTo(active, k).Some?
    requires j < |IdsOf(active, PM)|
    ensures LoadOf(active, AssignUpTo(active, k).value, IdsOf(active, PM)[j])
            == Share(CountRole(active[..k], EMP), |IdsOf(active, PM)|, j)
  {
    hide LoadOf, RowsFor, IdsOf, PoolsOf, DistinctIds, AssignUpTo, CountRole;
    if k > 0 {
      var e := active[k - 1];
      LastAssigned(active, k - 1);
      LoadSoFar(active, k - 1, j);
      LoadOfNews(active, k - 1, j);
      LoadSplits(active, AssignUpTo(active, k - 1).value,
                 RowsFor(e, CountRole(active[..k - 1], e.role), PoolsOf(active)).value, IdsOf(active, PM)[j]);
    } else {
      NothingLoaded(active, j);
    }
  }

  lemma NothingLoaded(active: seq<Employee>, j: nat)
    requires j < |IdsOf(active, PM)|
    ensures AssignUpTo(active, 0) == Some([])
    ensures LoadOf(active, [], IdsOf(active, PM)[j]) == 0 && CountRole(active[..0], EMP) == 0
  {
  }

  lemma LoadSplits(active: seq<Employee>, earlier: seq<ChainRow>, news: seq<ChainRow>, p: int)
    ensures LoadOf(active, earlier + news, p) == LoadOf(active, earlier, p) + LoadOf(active, news, p)
  {
    FilterAcross((r: ChainRow) => Loads(active, r, p), earlier, news);
  }

  lemma LoadOfNews(active: seq<Employee>, k: nat, j: nat)
    requires DistinctIds(active) && k < |active| && j < |IdsOf(active, PM)|
    requires RowsFor(active[k], CountRole(active[..k], active[k].role), PoolsOf(active)).Some?
    ensures var i := CountRole(active[..k], active[k].role);
            LoadOf(active, RowsFor(active[k], i, PoolsOf(active)).value, IdsOf(active, PM)[j])
            == if active[k].role == EMP && i % |IdsOf(active, PM)| == j then 1 else 0
  {
    var e, pm := active[k], IdsOf(active, PM);
    var i := CountRole(active[..k], e.role);
    var news := RowsFor(e, i, PoolsOf(active)).value;
    var load := (r: ChainRow) => Loads(active, r, pm[j]);
    OneRole(active, k, EMP);
    IdsAreDistinct(active, PM);
    FilterAppend(load, [], news[0]);
    assert [] + [news[0]] == [news[0]];
    if |news| == 2 {
      FilterAppend(load, [news[0]], news[1]);
      assert news == [news[0]] + [news[1]];
    } else {
      assert news == [news[0]];
    }
    if e.role == EMP {
      EmployeeGetsTheNextManager(active, k, i);
      assert news[0] == ChainRow(e.id, 1, pm[i % |pm|]);
    }
  }

  /** With at least one PM, the EMPLOYEE loads of any two PMs differ by at most one. */
  lemma LoadsAreBalanced(employees: seq<Employee>, j: nat, k: nat)
    requires DistinctIds(employees) && AssignApprovers(employees).Some?
    requires j < |IdsOf(ActiveOf(employees), PM)| && k < |IdsOf(ActiveOf(employees), PM)|
    ensures var active, rows := ActiveOf(employees), AssignApprovers(employees).value;
            var pm := IdsOf(active, PM);
            -1 <= (LoadOf(active, rows, pm[j]) as int) - LoadOf(active, rows, pm[k]) <= 1
  {
    var active := ActiveOf(employees);
    ActiveHasDistinctIds(employees);
    LoadSoFar(active, |active|, j);
    LoadSoFar(active, |active|, k);
    assert active[..|active|] == active;
    ShareIsEven(CountRole(active, EMP), |IdsOf(active, PM)|, j);
    ShareIsEven(CountRole(active, EMP), |IdsOf(active, PM)|, k);
  }

  // ----- the loops -----

  lemma {:induction false} FailureSticks(active: seq<Employee>, k: nat, n: nat)
    requires k <= n <= |active| && AssignUpTo(active, k).None?
    ensures AssignUpTo(active, n).None?
  {
    if k < n {
      FailureSticks(active, k, n - 1);
    }
  }

  function CounterOf(counters: map<Role, nat>, role: Role): nat {
    if role in counters then counters[role] else 0
  }

  /** Each employee's index within its own role group. */
  method IndexRoles(active: seq<Employee>) returns (indexInRole: map<int, nat>)
    requires DistinctIds(active)
    ensures forall j :: 0 <= j < |active| ==>
              active[j].id in indexInRole && indexInRole[active[j].id] == CountRole(active[..j], active[j].role)
  {
    indexInRole := map[];
    var counters: map<Role, nat> := map[];
    for k := 0 to |active|
      invariant forall role :: CounterOf(counters, role) == CountRole(active[..k], role)
      invariant forall j :: 0 <= j < k ==>
                  active[j].id in indexInRole && indexInRole[active[j].id] == CountRole(active[..j], active[j].role)
    {
      var e := active[k];
      var n := CounterOf(counters, e.role);
      indexInRole := indexInRole[e.id := n];
      counters := counters[e.role := n + 1];
      assert active[..k + 1][..k] == active[..k];
    }
  }

  method RowsByLoops(e: Employee, i: nat, pools: Pools) returns (r: Option<seq<ChainRow>>)
    ensures r == RowsFor(e, i, pools)
  {
    var l1 := PickByLoops(e.id, i, L1Pools(e.role, pools), None);
    if l1.None? {
      return None;
    }
    var rows := [ChainRow(e.id, 1, l1.value)];
    if L2Pools(e.role, pools).Some? {
      var l2 := PickByLoops(e.id, i, L2Pools(e.role, pools).value, l1);
      if l2.None? {
        return None;
      }
      rows := rows + [ChainRow(e.id, 2, l2.value)];
      assert rows == [ChainRow(e.id, 1, l1.value), ChainRow(e.id, 2, l2.value)];
    }
    return Some(rows);
  }

  /** The counting loop, then the assigning one. */
  method AssignByLoops(employees: seq<Employee>) returns (r: Option<seq<ChainRow>>)
    requires DistinctIds(employees)
    ensures r == AssignApprovers(employees)
  {
    var active := ActiveOf(employees);
    var pools := PoolsOf(active);
    ActiveHasDistinctIds(employees);
    var indexInRole := IndexRoles(active);
    var rows := [];
    for k := 0 to |active|
      invariant AssignUpTo(active, k) == Some(rows)
    {
      var written := RowsByLoops(active[k], indexInRole[active[k].id], pools);
      if written.None? {
        FailureSticks(active, k + 1, |active|);
        return None;
      }
      rows := rows + written.value;
    }
    return Some(rows);
  }
}
