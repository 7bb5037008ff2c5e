/** The transfer matrix statistics of app.js: losses, duplicates, pending packets and out-of-order arrivals. */
module TransferStats {

  datatype Entry = Entry(id: int, time: int)

  // ---- Arrival order ----

  /** One step of a stable sort by time. */
  function Insert(e: Entry, es: seq<Entry>): seq<Entry> {
    if es == [] || e.time < es[0].time then [e] + es else [es[0]] + Insert(e, es[1..])
  }

  /** The entries in time order; entries of equal time keep their order, as Array.prototype.sort keeps it. */
  function SortByTime(es: seq<Entry>): (r: seq<Entry>)
    ensures |r| == |es|
  {
    if es == [] then []
    else
      var last, before := es[|es| - 1], SortByTime(es[..|es| - 1]);
      InsertLength(last, before);
      Insert(last, before)
  }

  lemma {:induction false} InsertLength(e: Entry, es: seq<Entry>)
    ensures |Insert(e, es)| == |es| + 1
    decreases |es|
  {
    if es != [] && e.time >= es[0].time {
      InsertLength(e, es[1..]);
    }
  }

  function Ids(es: seq<Entry>): (ids: seq<int>)
    ensures |ids| == |es| && forall i :: 0 <= i < |ids| ==> ids[i] == es[i].id
  {
    seq(|es|, i requires 0 <= i < |es| => es[i].id)
  }

  predicate TimeOrdered(es: seq<Entry>) {
    forall i, j :: 0 <= i < j < |es| ==> es[i].time <= es[j].time
  }

  lemma {:induction false} InsertMultiset(e: Entry, es: seq<Entry>)
    ensures multiset(Insert(e, es)) == multiset(es) + multiset{e}
    decreases |es|
  {
    if es != [] && e.time >= es[0].time {
      InsertMultiset(e, es[1..]);
      assert es == [es[0]] + es[1..];
    }
  }

  lemma {:induction false} InsertOrdered(e: Entry, es: seq<Entry>)
    requires TimeOrdered(es)
    ensures TimeOrdered(Insert(e, es))
    decreases |es|
  {
    if es != [] && e.time >= es[0].time {
      var rest := Insert(e, es[1..]);
      InsertOrdered(e, es[1..]);
      InsertMultiset(e, es[1..]);
      forall i | 0 <= i < |rest|
        ensures es[0].time <= rest[i].time
      {
        assert rest[i] in multiset(rest);
        assert rest[i] == e || rest[i] in es[1..];
      }
    }
  }

  /** Sorting orders the receptions by time and neither drops nor invents one. */
  lemma {:induction false} SortOrders(es: seq<Entry>)
    ensures TimeOrdered(SortByTime(es)) && multiset(SortByTime(es)) == multiset(es)
    decreases |es|
  {
    if es != [] {
      var n := |es| - 1;
      SortOrders(es[..n]);
      InsertOrdered(es[n], SortByTime(es[..n]));
      InsertMultiset(es[n], SortByTime(es[..n]));
      assert es == es[..n] + [es[n]];
    }
  }

  function AtTime(es: seq<Entry>, t: int): seq<Entry> {
    if es == [] then [] else AtTime(es[..|es| - 1], t) + (if es[|es| - 1].time == t then [es[|es| - 1]] else [])
  }

  lemma {:induction false} AtTimeCons(e: Entry, es: seq<Entry>, t: int)
    ensures AtTime([e] + es, t) == (if e.time == t then [e] else []) + AtTime(es, t)
    decreases |es|
  {
    var all := [e] + es;
    if es == [] {
      assert all[..0] == [];
    } else {
      AtTimeCons(e, es[..|es| - 1], t);
      assert all[..|all| - 1] == [e] + es[..|es| - 1];
    }
  }

  lemma {:induction false} NoneLater(es: seq<Entry>, t: int)
    requires forall i :: 0 <= i < |es| ==> es[i].time > t
    ensures AtTime(es, t) == []
    decreases |es|
  {
    if es != [] {
      NoneLater(es[..|es| - 1], t);
    }
  }

  lemma FrontStable(e: Entry, es: seq<Entry>, t: int)
    requires TimeOrdered(es) && (es == [] || e.time < es[0].time)
    ensures AtTime([e] + es, t) == AtTime(es, t) + (if e.time == t then [e] else [])
  {
    hide AtTime;
    AtTimeCons(e, es, t);
    if e.time == t {
      NoneLater(es, t);
    }
  }

  lemma {:induction false} InsertStable(e: Entry, es: seq<Entry>, t: int)
    requires TimeOrdered(es)
    ensures AtTime(Insert(e, es), t) == AtTime(es, t) + (if e.time == t then [e] else [])
    decreases |es|
  {
    hide AtTime;
    if es == [] || e.time < es[0].time {
      FrontStable(e, es, t);
    } else {
      InsertStable(e, es[1..], t);
      AtTimeCons(es[0], Insert(e, es[1..]), t);
      AtTimeCons(es[0], es[1..], t);
      assert [es[0]] + es[1..] == es;
    }
  }

  /** Receptions of one time keep the order they were logged in. */
  lemma {:induction false} SortIsStable(es: seq<Entry>, t: int)
    ensures AtTime(SortByTime(es), t) == AtTime(es, t)
    decreases |es|
  {
    if es != [] {
      var n := |es| - 1;
      SortIsStable(es[..n], t);
      SortOrders(es[..n]);
      InsertStable(es[n], SortByTime(es[..n]), t);
    }
  }

  // ---- Out-of-order arrivals ----

  function SetOf(s: seq<int>): set<int> {
    set x | x in s
  }

  function Larger(s: seq<int>, x: int): set<int> {
    set y | y in s && y > x
  }

  lemma SetOfSnoc(s: seq<int>, x: int)
    ensures SetOf(s + [x]) == SetOf(s) + {x}
  {
  }

  lemma SetOfCons(x: int, s: seq<int>)
    ensures SetOf([x] + s) == {x} + SetOf(s)
  {
  }

  /** Arrival i has evidence of disorder: a smaller id arrives later, or the one just before it is larger. */
  ghost predicate Disordered(ids: seq<int>, i: nat)
    requires i < |ids|
  {
    Undercut(ids, i) || (i > 0 && ids[i - 1] > ids[i])
  }

  ghost predicate Undercut(ids: seq<int>, i: nat)
    requires i < |ids|
  {
    exists j :: i < j < |ids| && ids[j] < ids[i]
  }

  ghost function OutOfOrder(ids: seq<int>): set<int> {
    set i: nat | i < |ids| && Disordered(ids, i) :: ids[i]
  }

  lemma MarkedOne(ids: seq<int>, i: nat)
    requires i < |ids| && Disordered(ids, i)
    ensures ids[i] in OutOfOrder(ids)
  {
  }

  lemma MarkedFrom(ids: seq<int>, v: int) returns (i: nat)
    requires v in OutOfOrder(ids)
    ensures i < |ids| && Disordered(ids, i) && ids[i] == v
  {
    i :| i < |ids| && Disordered(ids, i) && ids[i] == v;
  }

  lemma UndercutStep(ids: seq<int>, i: nat, x: int)
    requires i < |ids|
    ensures Undercut(ids + [x], i) <==> Undercut(ids, i) || x < ids[i]
  {
    var all := ids + [x];
    if x < ids[i] {
      assert all[|ids|] < all[i];
    }
    if Undercut(ids, i) {
      var j :| i < j < |ids| && ids[j] < ids[i];
      assert all[j] < all[i];
    }
  }

  /** What one more arrival adds to the marked set. */
  ghost function NewMarks(ids: seq<int>, x: int): set<int> {
    Larger(ids, x) + (if ids != [] && ids[|ids| - 1] > x then {x} else {})
  }

  lemma DisorderedStep(ids: seq<int>, x: int, i: nat)
    requires i <= |ids|
    ensures Disordered(ids + [x], i) <==>
      if i < |ids| then Disordered(ids, i) || x < ids[i] else i > 0 && ids[i - 1] > x
  {
    if i < |ids| {
      UndercutStep(ids, i, x);
    }
  }

  lemma MarkedStays(ids: seq<int>, x: int)
    ensures OutOfOrder(ids) + NewMarks(ids, x) <= OutOfOrder(ids + [x])
  {
    hide OutOfOrder, Disordered;
    var all, n := ids + [x], |ids|;
    forall v | v in OutOfOrder(ids) + NewMarks(ids, x)
      ensures v in OutOfOrder(all)
    {
      var i: nat;
      if v in OutOfOrder(ids) {
        i := MarkedFrom(ids, v);
      } else if v in Larger(ids, x) {
        i :| i < n && ids[i] == v;
      } else {
        i := n;
      }
      DisorderedStep(ids, x, i);
      MarkedOne(all, i);
    }
  }

  lemma NothingElseMarked(ids: seq<int>, x: int)
    ensures OutOfOrder(ids + [x]) <= OutOfOrder(ids) + NewMarks(ids, x)
  {
    hide OutOfOrder, Disordered;
    var all, n := ids + [x], |ids|;
    forall v | v in OutOfOrder(all)
      ensures v in OutOfOrder(ids) + NewMarks(ids, x)
    {
      var i := MarkedFrom(all, v);
      DisorderedStep(ids, x, i);
      if i < n && Disordered(ids, i) {
        MarkedOne(ids, i);
      }
    }
  }

  /** The effect of one more arrival on the marked set. */
  lemma OutOfOrderStep(ids: seq<int>, x: int)
    ensures OutOfOrder(ids + [x]) == OutOfOrder(ids) + NewMarks(ids, x)
  {
    hide *;
    MarkedStays(ids, x);
    NothingElseMarked(ids, x);
  }

  /** The stack's entries are arrivals, in arrival order and in nondecreasing id order. */
  ghost predicate Stacked(ids: seq<int>, at: seq<nat>, stack: seq<int>) {
    && |at| == |stack|
    && (forall q :: 0 <= q < |at| ==> at[q] < |ids| && stack[q] == ids[at[q]])
    && (forall q, r :: 0 <= q < r < |stack| ==> stack[q] <= stack[r])
  }

  /** Every arrival that is not on the stack has been undercut; the last arrival is on top. */
  ghost predicate Complete(ids: seq<int>, at: seq<nat>) {
    && (forall i: nat :: i < |ids| && i !in at ==> Undercut(ids, i))
    && (ids != [] ==> at != [] && at[|at| - 1] == |ids| - 1)
  }

  /** Everything larger than x is on the stack or already marked. */
  lemma LargerIsStackedOrMarked(ids: seq<int>, at: seq<nat>, stack: seq<int>, x: int)
    requires Stacked(ids, at, stack) && Complete(ids, at)
    ensures OutOfOrder(ids) + Larger(ids, x) == OutOfOrder(ids) + Larger(stack, x)
  {
    hide OutOfOrder, Undercut;
    forall v | v in Larger(ids, x)
      ensures v in OutOfOrder(ids) + Larger(stack, x)
    {
      var i: nat :| i < |ids| && ids[i] == v;
      if i in at {
        var q :| 0 <= q < |at| && at[q] == i;
        assert stack[q] == v;
      } else {
        MarkedOne(ids, i);
      }
    }
    forall v | v in Larger(stack, x)
      ensures v in Larger(ids, x)
    {
      var q :| 0 <= q < |stack| && stack[q] == v;
      assert ids[at[q]] == v;
    }
  }

  lemma StackStep(ids: seq<int>, at: seq<nat>, stack: seq<int>, x: int, m: nat)
    requires Stacked(ids, at, stack) && m <= |stack|
    requires m > 0 ==> stack[m - 1] <= x
    ensures Stacked(ids + [x], at[..m] + [|ids|], stack[..m] + [x])
  {
  }

  lemma CompleteStep(ids: seq<int>, at: seq<nat>, stack: seq<int>, x: int, m: nat)
    requires Stacked(ids, at, stack) && Complete(ids, at) && m <= |stack|
    requires forall q :: m <= q < |stack| ==> stack[q] > x
    ensures Complete(ids + [x], at[..m] + [|ids|])
  {
    var all, at' := ids + [x], at[..m] + [|ids|];
    assert at'[m] == |ids|;
    hide Undercut;
    forall i: nat | i < |all| && i !in at'
      ensures Undercut(all, i)
    {
      assert i != |ids| && i !in at[..m];
      UndercutStep(ids, i, x);
      if i in at {
        var q := PoppedAt(at, m, i);
      }
    }
  }

  lemma PoppedAt(at: seq<nat>, m: nat, i: nat) returns (q: nat)
    requires m <= |at| && i in at && i !in at[..m]
    ensures m <= q < |at| && at[q] == i
  {
    assert at == at[..m] + at[m..];
    var r :| 0 <= r < |at[m..]| && at[m..][r] == i;
    q := m + r;
  }

  /** The entries popped for x are exactly those larger than x. */
  lemma PoppedAreTheLarger(stack: seq<int>, m: nat, x: int)
    requires m <= |stack| && forall q, r :: 0 <= q < r < |stack| ==> stack[q] <= stack[r]
    requires forall q :: m <= q < |stack| ==> stack[q] > x
    requires m > 0 ==> stack[m - 1] <= x
    ensures Larger(stack, x) == SetOf(stack[m..])
  {
    forall v | v in Larger(stack, x)
      ensures v in stack[m..]
    {
      var q :| 0 <= q < |stack| && stack[q] == v;
      assert q >= m;
      assert stack[m..][q - m] == v;
    }
  }

  lemma ArrivalStep(ids: seq<int>, at: seq<nat>, stack: seq<int>, x: int, m: nat)
    requires Stacked(ids, at, stack) && Complete(ids, at) && m <= |stack|
    requires forall q :: m <= q < |stack| ==> stack[q] > x
    requires m > 0 ==> stack[m - 1] <= x
    ensures Stacked(ids + [x], at[..m] + [|ids|], stack[..m] + [x]) && Complete(ids + [x], at[..m] + [|ids|])
    ensures OutOfOrder(ids + [x]) == OutOfOrder(ids) + PoppedMarks(stack, m, x)
  {
    StackStep(ids, at, stack, x, m);
    CompleteStep(ids, at, stack, x, m);
    PoppedAreTheLarger(stack, m, x);
    LargerIsStackedOrMarked(ids, at, stack, x);
    OutOfOrderStep(ids, x);
    PopsIffLastLarger(ids, at, stack, x, m);
  }

  lemma PopsIffLastLarger(ids: seq<int>, at: seq<nat>, stack: seq<int>, x: int, m: nat)
    requires Stacked(ids, at, stack) && Complete(ids, at) && m <= |stack|
    requires forall q :: m <= q < |stack| ==> stack[q] > x
    requires m > 0 ==> stack[m - 1] <= x
    ensures m < |stack| <==> ids != [] && ids[|ids| - 1] > x
  {
    if stack != [] {
      assert at[|at| - 1] < |ids|;
      assert stack[|stack| - 1] == ids[|ids| - 1];
    }
  }

  /** Put an id in the marked set, counting it once. */
  method Mark(oofIds: set<int>, oofCount: nat, id: int) returns (newIds: set<int>, newCount: nat)
    requires oofCount == |oofIds|
    ensures newIds == oofIds + {id} && newCount == |newIds|
  {
    newIds, newCount := oofIds, oofCount;
    if id !in newIds {
      newIds := newIds + {id};
      newCount := newCount + 1;
    }
  }

  /** What one arrival adds to the marked set once only the first m stack entries are left. */
  ghost function PoppedMarks(stack: seq<int>, m: nat, id: int): set<int>
    requires m <= |stack|
  {
    SetOf(stack[m..]) + (if m < |stack| then {id} else {})
  }

  lemma NothingPopped(stack: seq<int>, id: int)
    ensures PoppedMarks(stack, |stack|, id) == {} && stack[..|stack|] == stack
  {
  }

  lemma OneMorePopped(stack: seq<int>, m: nat, id: int)
    requires m < |stack|
    ensures PoppedMarks(stack, m, id) == PoppedMarks(stack, m + 1, id) + {stack[m]} + {id}
  {
    assert stack[m..] == [stack[m]] + stack[m + 1..];
    SetOfCons(stack[m], stack[m + 1..]);
  }

  /** The inner loop: pop every larger id, marking it and the newcomer. */
  method PopLarger(stack: seq<int>, id: int, oofIds: set<int>, oofCount: nat)
    returns (left: seq<int>, newIds: set<int>, newCount: nat)
    requires oofCount == |oofIds|
    ensures |left| <= |stack| && left == stack[..|left|]
    ensures forall q :: |left| <= q < |stack| ==> stack[q] > id
    ensures left != [] ==> left[|left| - 1] <= id
    ensures newIds == oofIds + PoppedMarks(stack, |left|, id)
    ensures newCount == |newIds|
  {
    hide PoppedMarks;
    left, newIds, newCount := stack, oofIds, oofCount;
    NothingPopped(stack, id);
    while |left| > 0 && left[|left| - 1] > id
      invariant |left| <= |stack| && left == stack[..|left|]
      invariant forall q :: |left| <= q < |stack| ==> stack[q] > id
      invariant newIds == oofIds + PoppedMarks(stack, |left|, id)
      invariant newCount == |newIds|
      decreases |left|
    {
      var early := left[|left| - 1];
      left := left[..|left| - 1];
      newIds, newCount := Mark(newIds, newCount, early);
      newIds, newCount := Mark(newIds, newCount, id);
      OneMorePopped(stack, |left|, id);
    }
  }

  /** The one-pass stack detector. */
  method MarkOutOfOrder(ids: seq<int>) returns (oofIds: set<int>, oofCount: nat)
    ensures oofIds == OutOfOrder(ids)
    ensures oofCount == |oofIds|
  {
    hide OutOfOrder, Stacked, Complete, PoppedMarks;
    oofIds, oofCount := {}, 0;
    var earlyStack: seq<int> := [];
    ghost var at: seq<nat> := [];
    NothingYet();
    for k := 0 to |ids|
      invariant Stacked(ids[..k], at, earlyStack) && Complete(ids[..k], at)
      invariant oofIds == OutOfOrder(ids[..k]) && oofCount == |oofIds|
    {
      var id := ids[k];
      ghost var seen, stack := ids[..k], earlyStack;
      earlyStack, oofIds, oofCount := PopLarger(earlyStack, id, oofIds, oofCount);
      SameLength(seen, at, stack);
      ArrivalStep(seen, at, stack, id, |earlyStack|);
      assert ids[..k + 1] == seen + [id];
      at := at[..|earlyStack|] + [k];
      earlyStack := earlyStack + [id];
    }
    assert ids[..|ids|] == ids;
  }

  lemma NothingYet()
    ensures OutOfOrder([]) == {} && Stacked([], [], []) && Complete([], [])
  {
  }

  lemma SameLength(ids: seq<int>, at: seq<nat>, stack: seq<int>)
    requires Stacked(ids, at, stack)
    ensures |at| == |stack|
  {
  }

  predicate Nondecreasing(ids: seq<int>) {
    forall i, j :: 0 <= i < j < |ids| ==> ids[i] <= ids[j]
  }

  /** Nothing is marked exactly when the ids arrive in order. */
  lemma NothingMarkedIffInOrder(ids: seq<int>)
    ensures OutOfOrder(ids) == {} <==> Nondecreasing(ids)
  {
    if !Nondecreasing(ids) {
      var i, j :| 0 <= i < j < |ids| && ids[i] > ids[j];
      assert Undercut(ids, i);
      MarkedOne(ids, i);
    }
  }

  /** Arrivals 5, 0, 1, 2 mark 5 and 0 only: the late 1 and 2, which the comment in the code names, stay unmarked. */
  lemma LateIdsCanStayUnmarked()
    ensures OutOfOrder([5, 0, 1, 2]) == {5, 0}
  {
    var ids := [5, 0, 1, 2];
    assert ids[1] < ids[0];
    assert Undercut(ids, 0) && Disordered(ids, 1);
    assert !Disordered(ids, 2) && !Disordered(ids, 3);
    assert OutOfOrder(ids) == {ids[0], ids[1]};
  }

  /** A larger id arrived before arrival i. */
  ghost predicate Late(ids: seq<int>, i: nat)
    requires i < |ids|
  {
    exists j :: 0 <= j < i && ids[j] > ids[i]
  }

  /** From f to k the arrivals are all the same id. */
  predicate Block(ids: seq<int>, f: nat, k: nat) {
    f <= k < |ids| && forall m :: f <= m <= k ==> ids[m] == ids[f]
  }

  /**
   * At f a late id arrives for the first time, right after a smaller one, and it comes again only in an unbroken run
   * from f on; nothing smaller follows.
   */
  ghost predicate MissedAt(ids: seq<int>, f: nat) {
    && 0 < f < |ids| && ids[f - 1] < ids[f]
    && Late(ids, f)
    && (forall k :: f < k < |ids| ==> ids[k] >= ids[f])
    && (forall k: nat :: k < |ids| && ids[k] == ids[f] ==> Block(ids, f, k))
  }

  lemma MissedIsOrdered(ids: seq<int>, f: nat, k: nat)
    requires MissedAt(ids, f) && k < |ids| && ids[k] == ids[f]
    ensures !Disordered(ids, k)
  {
    assert Block(ids, f, k);
    if k > f {
      assert ids[k - 1] == ids[f];
    }
  }

  lemma MissedIsUnmarked(ids: seq<int>, f: nat)
    requires MissedAt(ids, f)
    ensures ids[f] !in OutOfOrder(ids)
  {
    hide OutOfOrder, Disordered, Late, Block;
    forall k: nat | k < |ids| && ids[k] == ids[f]
      ensures !Disordered(ids, k)
    {
      MissedIsOrdered(ids, f, k);
    }
    if ids[f] in OutOfOrder(ids) {
      var k := MarkedFrom(ids, ids[f]);
    }
  }

  lemma FirstOccurrence(ids: seq<int>, i: nat) returns (f: nat)
    requires i < |ids|
    ensures f <= i && ids[f] == ids[i] && forall k :: 0 <= k < f ==> ids[k] != ids[i]
  {
    f := 0;
    while ids[f] != ids[i]
      invariant f <= i && forall k :: 0 <= k < f ==> ids[k] != ids[i]
      decreases i - f
    {
      f := f + 1;
    }
  }

  /** Between two arrivals of an id that is not marked nothing else arrives. */
  lemma {:induction false} UnmarkedBlock(ids: seq<int>, f: nat, k: nat)
    requires f <= k < |ids| && ids[k] == ids[f] && ids[f] !in OutOfOrder(ids)
    ensures Block(ids, f, k)
    decreases k - f
  {
    hide OutOfOrder;
    if k > f {
      if Disordered(ids, k) {
        MarkedOne(ids, k);
      }
      if Disordered(ids, f) {
        MarkedOne(ids, f);
      }
      assert ids[k - 1] == ids[f];
      UnmarkedBlock(ids, f, k - 1);
    }
  }

  lemma UnmarkedLateIsMissed(ids: seq<int>, i: nat) returns (f: nat)
    requires i < |ids| && Late(ids, i) && ids[i] !in OutOfOrder(ids)
    ensures MissedAt(ids, f) && ids[f] == ids[i]
  {
    hide OutOfOrder, Block;
    f := FirstOccurrence(ids, i);
    if Disordered(ids, f) {
      MarkedOne(ids, f);
    }
    forall k: nat | k < |ids| && ids[k] == ids[f]
      ensures Block(ids, f, k)
    {
      UnmarkedBlock(ids, f, k);
    }
    var j :| 0 <= j < i && ids[j] > ids[i];
    if j >= f {
      BlockHolds(ids, f, i, j);
    }
    assert Late(ids, f);
  }

  lemma BlockHolds(ids: seq<int>, f: nat, k: nat, j: nat)
    requires Block(ids, f, k) && f <= j <= k
    ensures ids[j] == ids[f]
  {
  }

  /** The earlier id of an inversion is always marked. */
  lemma EarlyIsMarked(ids: seq<int>, j: nat, i: nat)
    requires j < i < |ids| && ids[j] > ids[i]
    ensures ids[j] in OutOfOrder(ids)
  {
    assert Undercut(ids, j);
    MarkedOne(ids, j);
  }

  /** A late id is left unmarked exactly when it is missed somewhere. */
  lemma LateUnmarkedIff(ids: seq<int>, v: int)
    ensures v !in OutOfOrder(ids) && (exists i: nat :: i < |ids| && ids[i] == v && Late(ids, i)) <==>
      exists f: nat :: MissedAt(ids, f) && ids[f] == v
  {
    hide OutOfOrder, Late, Block;
    if v !in OutOfOrder(ids) && exists i: nat :: i < |ids| && ids[i] == v && Late(ids, i) {
      var i: nat :| i < |ids| && ids[i] == v && Late(ids, i);
      var f := UnmarkedLateIsMissed(ids, i);
    }
    if f: nat :| MissedAt(ids, f) && ids[f] == v {
      MissedIsUnmarked(ids, f);
    }
  }

  /** Both ids of every inversion are marked, as the comment in the code wants it. */
  ghost predicate BothMarked(ids: seq<int>) {
    forall j, i :: 0 <= j < i < |ids| && ids[j] > ids[i] ==> ids[j] in OutOfOrder(ids) && ids[i] in OutOfOrder(ids)
  }

  /** The comment's claim holds exactly for the arrivals that miss no late id. */
  lemma BothMarkedIff(ids: seq<int>)
    ensures BothMarked(ids) <==> !exists f: nat :: MissedAt(ids, f)
  {
    hide OutOfOrder, Block;
    if !BothMarked(ids) {
      var j, i :| 0 <= j < i < |ids| && ids[j] > ids[i] && !(ids[j] in OutOfOrder(ids) && ids[i] in OutOfOrder(ids));
      EarlyIsMarked(ids, j, i);
      assert Late(ids, i);
      var f := UnmarkedLateIsMissed(ids, i);
    }
    if f: nat :| MissedAt(ids, f) {
      MissedIsUnmarked(ids, f);
      var j :| 0 <= j < f && ids[j] > ids[f];
      assert !BothMarked(ids);
    }
  }

  // ---- Duplicates ----

  ghost predicate Listed(order: seq<int>, count: map<int, nat>) {
    forall i :: 0 <= i < |order| ==> order[i] in count
  }

  ghost function Total(order: seq<int>, count: map<int, nat>): nat
    requires Listed(order, count)
  {
    if order == [] then 0 else Total(order[..|order| - 1], count) + count[order[|order| - 1]]
  }

  lemma {:induction false} TotalUnaffected(order: seq<int>, count: map<int, nat>, id: int, v: nat)
    requires forall i :: 0 <= i < |order| ==> order[i] in count && order[i] != id
    ensures Total(order, count[id := v]) == Total(order, count)
    decreases |order|
  {
    if order != [] {
      TotalUnaffected(order[..|order| - 1], count, id, v);
    }
  }

  lemma {:induction false} TotalIncrement(order: seq<int>, count: map<int, nat>, id: int)
    requires (forall i :: 0 <= i < |order| ==> order[i] in count) && id in order
    requires forall i, j :: 0 <= i < j < |order| ==> order[i] != order[j]
    ensures Total(order, count[id := count[id] + 1]) == Total(order, count) + 1
    decreases |order|
  {
    var n := |order| - 1;
    if order[n] == id {
      TotalUnaffected(order[..n], count, id, count[id] + 1);
    } else {
      TotalIncrement(order[..n], count, id);
    }
  }

  predicate Distinct(order: seq<int>) {
    forall i, j :: 0 <= i < j < |order| ==> order[i] != order[j]
  }

  /** One id's count is how often it occurs, and it is listed. */
  ghost predicate Counted(ids: seq<int>, order: seq<int>, count: map<int, nat>, id: int) {
    (id in count <==> id in ids) && (id in count ==> id in order && count[id] == multiset(ids)[id])
  }

  /** The distinct ids in first-seen order, with how often each occurs. */
  ghost predicate Tally(ids: seq<int>, order: seq<int>, count: map<int, nat>) {
    && Distinct(order)
    && Listed(order, count)
    && (forall id :: Counted(ids, order, count, id))
    && Total(order, count) == |ids|
  }

  lemma CountedAgain(ids: seq<int>, order: seq<int>, count: map<int, nat>, id: int, x: int)
    requires Counted(ids, order, count, x) && id in count && Counted(ids, order, count, id)
    ensures Counted(ids + [id], order, count[id := count[id] + 1], x)
  {
    assert multiset(ids + [id]) == multiset(ids) + multiset{id};
  }

  lemma TallyAgain(ids: seq<int>, order: seq<int>, count: map<int, nat>, id: int)
    requires Tally(ids, order, count) && id in count
    ensures Tally(ids + [id], order, count[id := count[id] + 1])
  {
    assert Counted(ids, order, count, id);
    TotalIncrement(order, count, id);
    hide Total, Distinct, Counted;
    var more := count[id := count[id] + 1];
    forall x
      ensures Counted(ids + [id], order, more, x)
    {
      CountedAgain(ids, order, count, id, x);
    }
  }

  lemma CountedNew(ids: seq<int>, order: seq<int>, count: map<int, nat>, id: int, x: int)
    requires Counted(ids, order, count, x) && id !in count && Counted(ids, order, count, id)
    ensures Counted(ids + [id], order + [id], count[id := 1], x)
  {
    assert multiset(ids + [id]) == multiset(ids) + multiset{id};
    assert (order + [id])[|order|] == id;
    if x in order {
      var i :| 0 <= i < |order| && order[i] == x;
      assert (order + [id])[i] == x;
    }
  }

  lemma TallyNew(ids: seq<int>, order: seq<int>, count: map<int, nat>, id: int)
    requires Tally(ids, order, count) && id !in count
    ensures Tally(ids + [id], order + [id], count[id := 1])
  {
    var order', count' := order + [id], count[id := 1];
    TotalUnaffected(order, count, id, 1);
    assert order'[..|order|] == order;
    assert Total(order', count') == Total(order, count') + 1;
    hide Total, Counted;
    forall x
      ensures Counted(ids + [id], order', count', x)
    {
      CountedNew(ids, order, count, id, x);
    }
  }

  lemma TallyMeans(ids: seq<int>, order: seq<int>, count: map<int, nat>)
    requires Tally(ids, order, count)
    ensures forall id :: id in ids <==> id in order
    ensures forall id :: id in order ==> id in count && count[id] == multiset(ids)[id] && count[id] >= 1
  {
    forall id
      ensures id in ids <==> id in order
      ensures id in order ==> id in count && count[id] == multiset(ids)[id] && count[id] >= 1
    {
      assert Counted(ids, order, count, id);
    }
  }

  method CountReceptions(ids: seq<int>) returns (recvIds: set<int>, order: seq<int>, recvCount: map<int, nat>)
    ensures recvIds == SetOf(ids)
    ensures Tally(ids, order, recvCount) && |order| == |recvIds|
  {
    hide Tally, SetOf;
    recvIds, order, recvCount := {}, [], map[];
    TallyNothing();
    for k := 0 to |ids|
      invariant recvIds == SetOf(ids[..k])
      invariant recvIds == recvCount.Keys && |order| == |recvIds|
      invariant Tally(ids[..k], order, recvCount)
    {
      var id := ids[k];
      assert ids[..k + 1] == ids[..k] + [id];
      SetOfSnoc(ids[..k], id);
      if id in recvCount {
        TallyAgain(ids[..k], order, recvCount, id);
        recvCount := recvCount[id := recvCount[id] + 1];
        assert recvIds + {id} == recvIds;
      } else {
        TallyNew(ids[..k], order, recvCount, id);
        recvCount := recvCount[id := 1];
        order := order + [id];
      }
      recvIds := recvIds + {id};
    }
    assert ids[..|ids|] == ids;
  }

  lemma TallyNothing()
    ensures Tally([], [], map[]) && SetOf([]) == {}
  {
  }

  function Repeated(ids: seq<int>): set<int> {
    set id | id in ids && multiset(ids)[id] > 1
  }

  /** An id is repeated when it is received at two places. */
  lemma RepeatedIff(ids: seq<int>, id: int)
    ensures id in Repeated(ids) <==> exists i, j :: 0 <= i < j < |ids| && ids[i] == id && ids[j] == id
  {
    hide Repeated;
    CountedTwice(ids, id);
    if i, j :| 0 <= i < j < |ids| && ids[i] == id && ids[j] == id {
      CountAround(ids, i);
      assert ids[i + 1..][j - i - 1] == id;
    }
    if id in Repeated(ids) {
      var i :| 0 <= i < |ids| && ids[i] == id;
      CountAround(ids, i);
      if id in ids[i + 1..] {
        var k :| 0 <= k < |ids[i + 1..]| && ids[i + 1..][k] == id;
        assert ids[i + 1 + k] == id;
      } else {
        var k :| 0 <= k < |ids[..i]| && ids[..i][k] == id;
        assert ids[k] == id;
      }
    }
  }

  lemma CountedTwice(ids: seq<int>, id: int)
    ensures id in Repeated(ids) <==> multiset(ids)[id] > 1
  {
  }

  lemma CountAround(ids: seq<int>, i: nat)
    requires i < |ids|
    ensures multiset(ids)[ids[i]] > 1 <==> ids[i] in ids[..i] || ids[i] in ids[i + 1..]
  {
    var before, after := ids[..i], ids[i + 1..];
    assert ids == before + [ids[i]] + after;
    assert multiset(ids) == multiset(before) + multiset{ids[i]} + multiset(after);
  }

  /** The repeated ids among these. */
  ghost function RepeatedAmong(order: seq<int>, count: map<int, nat>): set<int>
    requires Listed(order, count)
  {
    set id | id in order && count[id] > 1
  }

  lemma RepeatedAmongSnoc(order: seq<int>, count: map<int, nat>, id: int)
    requires Listed(order, count) && id in count
    ensures Listed(order + [id], count)
    ensures RepeatedAmong(order + [id], count) == RepeatedAmong(order, count) + (if count[id] > 1 then {id} else {})
    ensures Total(order + [id], count) == Total(order, count) + count[id]
  {
    var all := order + [id];
    assert all[..|order|] == order;
    assert all[|order|] == id;
  }

  lemma RepeatedAmongAll(ids: seq<int>, order: seq<int>, count: map<int, nat>)
    requires Tally(ids, order, count)
    ensures Listed(order, count) && RepeatedAmong(order, count) == Repeated(ids) && Total(order, count) == |ids|
  {
    TallyMeans(ids, order, count);
    hide Tally, Total, Counted;
    assert forall id :: id in RepeatedAmong(order, count) <==> id in Repeated(ids);
  }

  lemma RepeatedAmongNone(count: map<int, nat>)
    ensures RepeatedAmong([], count) == {} && Total([], count) == 0
  {
  }

  /** Received distinct ids plus duplicates account for every reception. */
  method CountDuplicates(ghost ids: seq<int>, order: seq<int>, recvCount: map<int, nat>)
    returns (dupIds: set<int>, dupCount: nat)
    requires Tally(ids, order, recvCount)
    ensures dupIds == Repeated(ids)
    ensures |order| + dupCount == |ids|
  {
    dupIds, dupCount := {}, 0;
    TallyMeans(ids, order, recvCount);
    RepeatedAmongAll(ids, order, recvCount);
    RepeatedAmongNone(recvCount);
    hide Tally, RepeatedAmong, Repeated, Total;
    for k := 0 to |order|
      invariant Listed(order[..k], recvCount) && dupIds == RepeatedAmong(order[..k], recvCount)
      invariant k + dupCount == Total(order[..k], recvCount)
    {
      var id := order[k];
      assert order[..k + 1] == order[..k] + [id];
      assert id in order;
      RepeatedAmongSnoc(order[..k], recvCount, id);
      if recvCount[id] > 1 {
        dupIds := dupIds + {id};
        dupCount := dupCount + (recvCount[id] - 1);
      }
    }
    assert order[..|order|] == order;
  }

  // ---- Lost and pending ----

  function Range(n: nat): (r: set<int>)
    ensures forall id :: id in r <==> 0 <= id < n
  {
    if n == 0 then {} else Range(n - 1) + {n - 1}
  }

  method CollectSent(ids: seq<int>) returns (sentIds: set<int>, expectedCount: nat)
    ensures sentIds == SetOf(ids)
    ensures forall id :: id in ids ==> id < expectedCount
    ensures expectedCount > 0 ==> expectedCount - 1 in sentIds
  {
    sentIds := {};
    var maxSentId := -1;
    for k := 0 to |ids|
      invariant sentIds == SetOf(ids[..k])
      invariant maxSentId >= -1 && (maxSentId >= 0 ==> maxSentId in ids[..k])
      invariant forall id :: id in ids[..k] ==> id <= maxSentId
    {
      assert ids[..k + 1] == ids[..k] + [ids[k]];
      sentIds := sentIds + {ids[k]};
      if ids[k] > maxSentId {
        maxSentId := ids[k];
      }
    }
    assert ids[..|ids|] == ids;
    if ids != [] {
      assert ids[0] in sentIds;
    }
    if |sentIds| > 0 {
      expectedCount := if maxSentId + 1 > 0 then maxSentId + 1 else 0;
    } else {
      expectedCount := 0;
    }
  }

  method CollectMissing(expectedCount: nat, sentIds: set<int>, recvIds: set<int>)
    returns (lostIds: set<int>, pendingIds: set<int>)
    ensures lostIds == Range(expectedCount) * sentIds - recvIds
    ensures pendingIds == Range(expectedCount) - sentIds
  {
    lostIds, pendingIds := {}, {};
    for id := 0 to expectedCount
      invariant lostIds == Range(id) * sentIds - recvIds
      invariant pendingIds == Range(id) - sentIds
    {
      if id in sentIds && id !in recvIds {
        lostIds := lostIds + {id};
      }
      if id !in sentIds {
        pendingIds := pendingIds + {id};
      }
      assert Range(id + 1) == Range(id) + {id};
    }
  }

  /** Every expected id is lost, pending, or both sent and received. */
  lemma EveryIdAccounted(n: nat, sent: set<int>, recv: set<int>, lost: set<int>, pending: set<int>)
    requires lost == Range(n) * sent - recv && pending == Range(n) - sent
    ensures lost !! pending && lost + pending + Range(n) * sent * recv == Range(n)
  {
  }

  lemma LostAreSentUnreceived(ids: seq<int>, n: nat, sent: set<int>, recv: set<int>, lost: set<int>)
    requires sent == SetOf(ids) && lost == Range(n) * sent - recv
    requires forall id :: id in ids ==> id < n
    ensures forall id :: id in lost <==> id in sent && id >= 0 && id !in recv
    ensures forall id :: id in sent ==> id < n
  {
  }

  datatype Stats = Stats(
    expectedCount: nat, receivedCount: nat, sentCount: nat, lostCount: nat, dupCount: nat, oofCount: nat,
    lostIds: set<int>, dupIds: set<int>, oofIds: set<int>, pendingIds: set<int>, recvIds: set<int>, sentIds: set<int>)

  /** computeTransferStats for a file transfer. */
  method ComputeTransferStats(sent: seq<Entry>, recv: seq<Entry>) returns (s: Stats)
    ensures s.sentIds == SetOf(Ids(sent)) && s.recvIds == SetOf(Ids(recv))
    ensures s.sentCount == |s.sentIds| && s.receivedCount == |s.recvIds|
    ensures s.receivedCount + s.dupCount == |recv|
    ensures s.dupIds == Repeated(Ids(recv))
    ensures s.oofIds == OutOfOrder(Ids(SortByTime(recv))) && s.oofCount == |s.oofIds|
    ensures s.lostIds !! s.pendingIds && s.lostCount == |s.lostIds|
    ensures s.lostIds + s.pendingIds + Range(s.expectedCount) * s.sentIds * s.recvIds == Range(s.expectedCount)
    ensures forall id :: id in s.lostIds <==> id in s.sentIds && id >= 0 && id !in s.recvIds
    ensures s.expectedCount > 0 ==> s.expectedCount - 1 in s.sentIds
    ensures forall id :: id in s.sentIds ==> id < s.expectedCount
    ensures s.pendingIds == Range(s.expectedCount) - s.sentIds
  {
    hide *;
    var sentIds, expectedCount := CollectSent(Ids(sent));
    var recvIds, order, recvCount := CountReceptions(Ids(recv));
    var dupIds, dupCount := CountDuplicates(Ids(recv), order, recvCount);
    var oofIds, oofCount := MarkOutOfOrder(Ids(SortByTime(recv)));
    var lostIds, pendingIds := CollectMissing(expectedCount, sentIds, recvIds);
    EveryIdAccounted(expectedCount, sentIds, recvIds, lostIds, pendingIds);
    LostAreSentUnreceived(Ids(sent), expectedCount, sentIds, recvIds, lostIds);
    s := Stats(expectedCount, |recvIds|, |sentIds|, |lostIds|, dupCount, oofCount,
               lostIds, dupIds, oofIds, pendingIds, recvIds, sentIds);
  }
}
