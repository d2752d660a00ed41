/**
 * The versioned approver table: a slot is one step of one employee's chain, and
 * every operation is a batch of slot changes that ends old rows and inserts new
 * ones.
 */
module ChainTable {
  import opened Prelude

  datatype Step = L1 | L2

  /** `ended` stands for a stamped `ended_at`. */
  datatype ChainRow = ChainRow(employee: int, step: Step, approver: int, ended: bool)

  /** A row's position is its id. */
  type Table = seq<ChainRow>

  predicate ActiveAt(r: ChainRow, e: int, s: Step) {
    !r.ended && r.employee == e && r.step == s
  }

  function Current(t: Table, e: int, s: Step): Option<nat> {
    FirstIndex(t, (r: ChainRow) => ActiveAt(r, e, s))
  }

  function Approver(t: Table, e: int, s: Step): Option<int> {
    var id := Current(t, e, s);
    if id.Some? then Some(t[id.value].approver) else None
  }

  /** The user rows a foreign key may name, those `findById` returns, and the active ones. */
  datatype Users = Users(ids: set<int>, found: set<int>, active: set<int>)

  predicate GoodUsers(u: Users) {
    u.active <= u.found <= u.ids
  }

  /** The unique index over active rows. */
  predicate OneActive(t: Table) {
    forall i, j :: 0 <= i < j < |t| && !t[i].ended ==> !ActiveAt(t[j], t[i].employee, t[i].step)
  }

  /** The unique index, the no-self-approval CHECK and the foreign keys. */
  predicate Constraints(t: Table, u: Users) {
    && OneActive(t)
    && (forall i :: 0 <= i < |t| ==> t[i].approver != t[i].employee && t[i].approver in u.ids && t[i].employee in u.ids)
  }

  // ----- changes -----

  /** A tri-state input field: absent, null or a user id. */
  datatype Field = Unchanged | Clear | Assign(approver: int)

  datatype SlotChange = SlotChange(employee: int, step: Step, field: Field)

  datatype Insert = Insert(employee: int, step: Step, approver: int)

  datatype Changes = Changes(ends: seq<nat>, inserts: seq<Insert>)

  function Both(a: Changes, b: Changes): Changes {
    Changes(a.ends + b.ends, a.inserts + b.inserts)
  }

  function ChangeOf(t: Table, x: SlotChange): (c: Changes)
    ensures forall k :: 0 <= k < |c.ends| ==> c.ends[k] < |t| && ActiveAt(t[c.ends[k]], x.employee, x.step)
  {
    var current := Current(t, x.employee, x.step);
    var ends := if current.Some? then [current.value] else [];
    match x.field
    case Unchanged => Changes([], [])
    case Clear => Changes(ends, [])
    case Assign(v) =>
      if current.Some? && t[current.value].approver == v then Changes([], [])
      else Changes(ends, [Insert(x.employee, x.step, v)])
  }

  function ChangesOf(t: Table, xs: seq<SlotChange>): (c: Changes)
    ensures forall k :: 0 <= k < |c.ends| ==> c.ends[k] < |t|
  {
    if xs == [] then Changes([], []) else Both(ChangeOf(t, xs[0]), ChangesOf(t, xs[1..]))
  }

  function EndRows(t: Table, ends: seq<nat>): (after: Table)
    ensures |after| == |t|
    ensures forall i :: 0 <= i < |t| ==> after[i] == if i in ends then t[i].(ended := true) else t[i]
  {
    seq(|t|, i requires 0 <= i < |t| => if i in ends then t[i].(ended := true) else t[i])
  }

  function RowOf(x: Insert): ChainRow {
    ChainRow(x.employee, x.step, x.approver, false)
  }

  /** The table after the ends, then the inserts. */
  function Applied(t: Table, c: Changes): Table {
    EndRows(t, c.ends) + Map(RowOf, c.inserts)
  }

  /** Every change in a write of its own. */
  function ApplyEach(t: Table, xs: seq<SlotChange>): Table
    decreases |xs|
  {
    if xs == [] then t else ApplyEach(Applied(t, ChangeOf(t, xs[0])), xs[1..])
  }

  predicate SameSlot(x: SlotChange, y: SlotChange) {
    x.employee == y.employee && x.step == y.step
  }

  predicate DistinctSlots(xs: seq<SlotChange>) {
    forall i, j :: 0 <= i < j < |xs| ==> !SameSlot(xs[i], xs[j])
  }

  function Wanted(t: Table, x: SlotChange): Option<int> {
    match x.field
    case Unchanged => Approver(t, x.employee, x.step)
    case Clear => None
    case Assign(v) => Some(v)
  }

  // ----- one slot -----

  lemma CurrentIs(t: Table, i: nat)
    requires OneActive(t) && i < |t| && !t[i].ended
    ensures Current(t, t[i].employee, t[i].step) == Some(i)
  {
  }

  /** A change of one slot fills that slot as wanted. */
  lemma ChangedSlot(t: Table, x: SlotChange)
    requires OneActive(t)
    ensures var after := Applied(t, ChangeOf(t, x));
            OneActive(after) && Approver(after, x.employee, x.step) == Wanted(t, x)
  {
    var after, c := Applied(t, ChangeOf(t, x)), ChangeOf(t, x);
    if c.inserts != [] {
      assert after[|t|] == RowOf(c.inserts[0]);
      CurrentIs(after, |t|);
    } else if c.ends == [] {
      assert after == t;
    }
  }

  predicate SameAt(t: Table, after: Table, e: int, s: Step) {
    && |t| <= |after|
    && (forall i :: 0 <= i < |t| ==> (ActiveAt(after[i], e, s) <==> ActiveAt(t[i], e, s)))
    && (forall i :: 0 <= i < |t| ==> after[i].approver == t[i].approver)
    && (forall i :: |t| <= i < |after| ==> !ActiveAt(after[i], e, s))
  }

  lemma OtherRows(t: Table, x: SlotChange, e: int, s: Step)
    requires (x.employee, x.step) != (e, s)
    ensures SameAt(t, Applied(t, ChangeOf(t, x)), e, s)
  {
  }

  lemma SameCurrent(t: Table, after: Table, e: int, s: Step)
    requires SameAt(t, after, e, s)
    ensures Current(after, e, s) == Current(t, e, s) && Approver(after, e, s) == Approver(t, e, s)
  {
  }

  /** It leaves every other slot alone. */
  lemma OtherSlot(t: Table, x: SlotChange, e: int, s: Step)
    requires (x.employee, x.step) != (e, s)
    ensures var after := Applied(t, ChangeOf(t, x));
            Current(after, e, s) == Current(t, e, s) && Approver(after, e, s) == Approver(t, e, s)
  {
    OtherRows(t, x, e, s);
    SameCurrent(t, Applied(t, ChangeOf(t, x)), e, s);
  }

  lemma OtherChange(t: Table, x: SlotChange, y: SlotChange)
    requires !SameSlot(x, y)
    ensures ChangeOf(Applied(t, ChangeOf(t, x)), y) == ChangeOf(t, y)
    ensures Wanted(Applied(t, ChangeOf(t, x)), y) == Wanted(t, y)
  {
    OtherSlot(t, x, y.employee, y.step);
  }

  // ----- a batch of distinct slots -----

  lemma {:induction false} OtherChanges(t: Table, x: SlotChange, ys: seq<SlotChange>)
    requires forall k :: 0 <= k < |ys| ==> !SameSlot(x, ys[k])
    ensures ChangesOf(Applied(t, ChangeOf(t, x)), ys) == ChangesOf(t, ys)
  {
    if ys != [] {
      OtherChange(t, x, ys[0]);
      OtherChanges(t, x, ys[1..]);
    }
  }

  lemma AppliedTwice(t: Table, a: Changes, b: Changes)
    requires forall k :: 0 <= k < |b.ends| ==> b.ends[k] < |t|
    ensures Applied(Applied(t, a), b) == Applied(t, Both(a, b))
  {
  }

  /** Ending all rows first and inserting afterwards equals changing one slot after another. */
  lemma {:induction false} BatchIsEach(t: Table, xs: seq<SlotChange>)
    requires DistinctSlots(xs)
    ensures ApplyEach(t, xs) == Applied(t, ChangesOf(t, xs))
    decreases |xs|
  {
    if xs == [] {
      assert Applied(t, ChangesOf(t, xs)) == t;
    } else {
      var t1 := Applied(t, ChangeOf(t, xs[0]));
      OtherChanges(t, xs[0], xs[1..]);
      BatchIsEach(t1, xs[1..]);
      AppliedTwice(t, ChangeOf(t, xs[0]), ChangesOf(t, xs[1..]));
    }
  }

  predicate Touches(xs: seq<SlotChange>, e: int, s: Step) {
    exists k :: 0 <= k < |xs| && xs[k].employee == e && xs[k].step == s
  }

  /** After a batch, every slot it names holds what was wanted and every other slot what it held. */
  lemma {:induction false} SlotsAfterEach(t: Table, xs: seq<SlotChange>)
    requires OneActive(t) && DistinctSlots(xs)
    ensures OneActive(ApplyEach(t, xs))
    ensures forall k :: 0 <= k < |xs| ==> Approver(ApplyEach(t, xs), xs[k].employee, xs[k].step) == Wanted(t, xs[k])
    ensures forall e, s :: !Touches(xs, e, s) ==> Approver(ApplyEach(t, xs), e, s) == Approver(t, e, s)
    decreases |xs|
  {
    if xs != [] {
      var t1, rest := Applied(t, ChangeOf(t, xs[0])), xs[1..];
      ChangedSlot(t, xs[0]);
      SlotsAfterEach(t1, rest);
      assert forall k :: 0 <= k < |rest| ==> rest[k] == xs[k + 1];
      forall k | 0 <= k < |xs|
        ensures Approver(ApplyEach(t1, rest), xs[k].employee, xs[k].step) == Wanted(t, xs[k])
      {
        if k == 0 {
          assert !Touches(rest, xs[0].employee, xs[0].step);
        } else {
          OtherChange(t, xs[0], xs[k]);
          assert rest[k - 1] == xs[k];
        }
      }
      forall e, s | !Touches(xs, e, s)
        ensures Approver(ApplyEach(t1, rest), e, s) == Approver(t, e, s)
      {
        assert (xs[0].employee, xs[0].step) != (e, s);
        OtherSlot(t, xs[0], e, s);
        assert forall k :: 0 <= k < |rest| ==> rest[k] == xs[k + 1];
      }
    }
  }

  /** A row was asked for by one of the changes. */
  lemma {:induction false} InsertsComeFromChanges(t: Table, xs: seq<SlotChange>)
    ensures forall k :: 0 <= k < |ChangesOf(t, xs).inserts| ==>
              var x := ChangesOf(t, xs).inserts[k];
              SlotChange(x.employee, x.step, Assign(x.approver)) in xs
  {
    if xs != [] {
      InsertsComeFromChanges(t, xs[1..]);
    }
  }

  /** An assignment of a slot that the table's constraints allow. */
  predicate Allowed(x: SlotChange, u: Users) {
    x.field.Assign? ==> x.field.approver != x.employee && x.field.approver in u.ids && x.employee in u.ids
  }

  /** A batch of allowed assignments over distinct slots is never refused by the table. */
  lemma BatchKeepsConstraints(t: Table, xs: seq<SlotChange>, u: Users)
    requires Constraints(t, u) && DistinctSlots(xs)
    requires forall k :: 0 <= k < |xs| ==> Allowed(xs[k], u)
    ensures Constraints(Applied(t, ChangesOf(t, xs)), u)
  {
    SlotsAfterEach(t, xs);
    BatchIsEach(t, xs);
    InsertsComeFromChanges(t, xs);
    var c := ChangesOf(t, xs);
    var after := Applied(t, c);
    forall i | 0 <= i < |after|
      ensures after[i].approver != after[i].employee && after[i].approver in u.ids && after[i].employee in u.ids
    {
      if i >= |t| {
        var x := c.inserts[i - |t|];
        var k :| 0 <= k < |xs| && xs[k] == SlotChange(x.employee, x.step, Assign(x.approver));
        assert Allowed(xs[k], u);
      }
    }
  }

  // ----- the order within a batch -----

  /** The changes of `c` are those of `a` and `b` together, in some order. */
  predicate Mixes(c: Changes, a: Changes, b: Changes) {
    && multiset(c.ends) == multiset(a.ends) + multiset(b.ends)
    && multiset(c.inserts) == multiset(a.inserts) + multiset(b.inserts)
  }

  lemma MixFirst(first: Changes, c: Changes, a: Changes, b: Changes)
    requires Mixes(c, a, b)
    ensures Mixes(Both(first, c), a, Both(first, b))
  {
  }

  lemma ChangesOfCons(t: Table, x: SlotChange, xs: seq<SlotChange>)
    ensures ChangesOf(t, [x] + xs) == Both(ChangeOf(t, x), ChangesOf(t, xs))
  {
  }

  lemma MixBoth(a: Changes, b: Changes)
    ensures Mixes(Both(a, b), a, b)
  {
  }

  lemma WithoutTail(xs: seq<SlotChange>, i: nat)
    requires 0 < i < |xs|
    ensures Without(xs, i) == [xs[0]] + Without(xs[1..], i - 1)
  {
  }

  lemma {:induction false} ChangesSplit(t: Table, xs: seq<SlotChange>, i: nat)
    requires i < |xs|
    ensures Mixes(ChangesOf(t, xs), ChangeOf(t, xs[i]), ChangesOf(t, Without(xs, i)))
  {
    hide Mixes, ChangeOf, Both;
    var tail := xs[1..];
    assert xs == [xs[0]] + tail;
    if i == 0 {
      assert Without(xs, 0) == tail;
      MixBoth(ChangeOf(t, xs[0]), ChangesOf(t, tail));
    } else {
      ChangesSplit(t, tail, i - 1);
      WithoutTail(xs, i);
      hide ChangesOf, Without;
      ChangesOfCons(t, xs[0], tail);
      ChangesOfCons(t, xs[0], Without(tail, i - 1));
      MixFirst(ChangeOf(t, xs[0]), ChangesOf(t, tail), ChangeOf(t, xs[i]), ChangesOf(t, Without(tail, i - 1)));
    }
  }

  lemma {:induction false} ChangesInAnyOrder(t: Table, xs: seq<SlotChange>, ys: seq<SlotChange>)
    requires multiset(xs) == multiset(ys)
    ensures multiset(ChangesOf(t, xs).ends) == multiset(ChangesOf(t, ys).ends)
    ensures multiset(ChangesOf(t, xs).inserts) == multiset(ChangesOf(t, ys).inserts)
    decreases |xs|
  {
    if xs == [] {
      assert |ys| == |multiset(ys)| == 0;
    } else {
      assert xs[0] in multiset(ys);
      var j :| 0 <= j < |ys| && ys[j] == xs[0];
      assert multiset(Without(xs, 0)) == multiset(xs) - multiset{xs[0]} == multiset(Without(ys, j));
      ChangesInAnyOrder(t, Without(xs, 0), Without(ys, j));
      ChangesSplit(t, xs, 0);
      ChangesSplit(t, ys, j);
    }
  }

  /** The order of a batch decides only the ids of the new rows. */
  lemma BatchInAnyOrder(t: Table, xs: seq<SlotChange>, ys: seq<SlotChange>)
    requires multiset(xs) == multiset(ys)
    ensures var a, b := Applied(t, ChangesOf(t, xs)), Applied(t, ChangesOf(t, ys));
            |a| == |b| >= |t| && a[..|t|] == b[..|t|] && multiset(a[|t|..]) == multiset(b[|t|..])
  {
    ChangesInAnyOrder(t, xs, ys);
    var c, d := ChangesOf(t, xs), ChangesOf(t, ys);
    MapPermutation(RowOf, c.inserts, d.inserts);
    assert |c.inserts| == |multiset(c.inserts)| == |d.inserts|;
    forall i
      ensures i in c.ends <==> i in d.ends
    {
      assert i in multiset(c.ends) <==> i in multiset(d.ends);
    }
    assert Applied(t, c)[..|t|] == EndRows(t, c.ends) == EndRows(t, d.ends) == Applied(t, d)[..|t|];
    assert Applied(t, c)[|t|..] == Map(RowOf, c.inserts);
    assert Applied(t, d)[|t|..] == Map(RowOf, d.inserts);
  }
}
