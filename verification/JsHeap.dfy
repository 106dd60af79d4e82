/** The object table of marine_js.js: handles into one array whose free slots form a linked list
    threaded through the array itself, with a stack of borrowed objects below it. */
module JsHeap {
  import opened Wrappers

  /** A JavaScript value. A free slot holds the number of the next free one, and nothing tells it
      apart from a number that was stored. */
  datatype JsVal = Undefined | Null | Bool(b: bool) | Num(n: int) | Thing(id: nat)

  const STACK_TOP := 128
  const FIRST_HANDLE := 132

  datatype State = State(heap: seq<JsVal>, heapNext: nat, stackPointer: nat)

  function Initial(): State {
    State(seq(STACK_TOP, i => Undefined) + [Undefined, Null, Bool(true), Bool(false)], FIRST_HANDLE, STACK_TOP)
  }

  // ----- The operations -----

  function DropObject(st: State, idx: nat): State
    requires idx < |st.heap|
  {
    if idx < FIRST_HANDLE then st
    else State(st.heap[idx := Num(st.heapNext)], idx, st.stackPointer)
  }

  /** The slot in front of the free list, once the array has been extended if need be. */
  function Extended(st: State): seq<JsVal> {
    if st.heapNext == |st.heap| then st.heap + [Num(|st.heap| + 1)] else st.heap
  }

  predicate CanAdd(st: State) {
    st.heapNext <= |st.heap| && Extended(st)[st.heapNext].Num? && Extended(st)[st.heapNext].n >= 0
  }

  function AddHeapObject(st: State, obj: JsVal): (State, nat)
    requires CanAdd(st)
  {
    var heap, idx := Extended(st), st.heapNext;
    (State(heap[idx := obj], heap[idx].n, st.stackPointer), idx)
  }

  /** None is the error "out of js stack". */
  function AddBorrowedObject(st: State, obj: JsVal): Option<State>
    requires 1 <= st.stackPointer <= |st.heap|
  {
    if st.stackPointer == 1 then None
    else Some(State(st.heap[st.stackPointer - 1 := obj], st.heapNext, st.stackPointer - 1))
  }

  /** The end of a borrow: its slot is cleared. */
  function EndBorrow(st: State): State
    requires st.stackPointer < |st.heap|
  {
    State(st.heap[st.stackPointer := Undefined], st.heapNext, st.stackPointer + 1)
  }

  // ----- The free list -----

  function NextAfter(st: State, free: seq<nat>, i: nat): nat {
    if i < |free| then free[i] else |st.heap|
  }

  /** `free` is the list that starts at heapNext, follows the numbers in the slots and ends at
      heap.length: finite, without repetition, entirely in handle territory. */
  ghost predicate FreeList(st: State, free: seq<nat>) {
    && (forall i, j :: 0 <= i < j < |free| ==> free[i] != free[j])
    && (forall i :: 0 <= i < |free| ==> FIRST_HANDLE <= free[i] < |st.heap|)
    && st.heapNext == NextAfter(st, free, 0)
    && (forall i :: 0 <= i < |free| ==> st.heap[free[i]] == Num(NextAfter(st, free, i + 1)))
  }

  ghost predicate ConstantsKept(st: State) {
    |st.heap| >= FIRST_HANDLE && st.heap[STACK_TOP..FIRST_HANDLE] == [Undefined, Null, Bool(true), Bool(false)]
  }

  /** The slots of handles are exactly the live ones and the free ones; a live one holds its object. */
  ghost predicate HandlesHeld(st: State, free: seq<nat>, live: map<nat, JsVal>) {
    && (forall h :: h in live <==> FIRST_HANDLE <= h < |st.heap| && h !in free)
    && (forall h :: h in live ==> st.heap[h] == live[h])
  }

  /** The borrowed objects, newest first, sit right below the constants; under them nothing is kept. */
  ghost predicate BorrowsHeld(st: State, borrowed: seq<JsVal>) {
    && |st.heap| >= STACK_TOP && 1 <= st.stackPointer && st.stackPointer + |borrowed| == STACK_TOP
    && st.heap[st.stackPointer..STACK_TOP] == borrowed
    && forall i :: 0 <= i < st.stackPointer ==> st.heap[i] == Undefined
  }

  /** The table holds the objects `live` by handle and the stack `borrowed`. */
  ghost predicate Holds(st: State, free: seq<nat>, live: map<nat, JsVal>, borrowed: seq<JsVal>) {
    FreeList(st, free) && ConstantsKept(st) && HandlesHeld(st, free, live) && BorrowsHeld(st, borrowed)
  }

  lemma InitialHolds()
    ensures Holds(Initial(), [], map[], [])
  {
  }

  lemma AddIsPossible(st: State, free: seq<nat>, live: map<nat, JsVal>, borrowed: seq<JsVal>)
    requires Holds(st, free, live, borrowed)
    ensures CanAdd(st)
  {
  }

  function FreeAfterAdd(free: seq<nat>): seq<nat> {
    if free == [] then [] else free[1..]
  }

  lemma AddReusesFree(st: State, free: seq<nat>, obj: JsVal)
    requires FreeList(st, free) && free != [] && CanAdd(st)
    ensures AddHeapObject(st, obj) == (State(st.heap[free[0] := obj], NextAfter(st, free, 1), st.stackPointer), free[0])
    ensures FreeList(AddHeapObject(st, obj).0, free[1..])
  {
  }

  lemma AddKeepsFreeList(st: State, free: seq<nat>, obj: JsVal)
    requires FreeList(st, free) && |st.heap| >= FIRST_HANDLE && CanAdd(st)
    ensures FreeList(AddHeapObject(st, obj).0, FreeAfterAdd(free))
    ensures AddHeapObject(st, obj).1 == if free == [] then |st.heap| else free[0]
  {
  }

  lemma AddGrows(st: State, obj: JsVal)
    requires FreeList(st, [])
    ensures CanAdd(st)
    ensures AddHeapObject(st, obj) == (State(st.heap + [obj], |st.heap| + 1, st.stackPointer), |st.heap|)
  {
    assert (st.heap + [Num(|st.heap| + 1)])[|st.heap| := obj] == st.heap + [obj];
  }

  lemma HandlesGrow(st: State, live: map<nat, JsVal>, obj: JsVal, next: nat)
    requires HandlesHeld(st, [], live) && |st.heap| >= FIRST_HANDLE
    ensures |st.heap| !in live
    ensures HandlesHeld(State(st.heap + [obj], next, st.stackPointer), [], live[|st.heap| := obj])
  {
  }

  lemma HandlesReuse(st: State, free: seq<nat>, live: map<nat, JsVal>, obj: JsVal, next: nat)
    requires FreeList(st, free) && HandlesHeld(st, free, live) && free != []
    ensures free[0] !in live
    ensures HandlesHeld(State(st.heap[free[0] := obj], next, st.stackPointer), free[1..], live[free[0] := obj])
  {
    assert forall h :: h in free <==> h == free[0] || h in free[1..];
    assert free[0] !in free[1..];
  }

  lemma AddHoldsHandles(st: State, free: seq<nat>, live: map<nat, JsVal>, obj: JsVal)
    requires FreeList(st, free) && |st.heap| >= FIRST_HANDLE && HandlesHeld(st, free, live) && CanAdd(st)
    ensures var (after, idx) := AddHeapObject(st, obj);
            && idx !in live && idx >= FIRST_HANDLE
            && HandlesHeld(after, FreeAfterAdd(free), live[idx := obj])
  {
    if free == [] {
      AddGrows(st, obj);
      HandlesGrow(st, live, obj, |st.heap| + 1);
    } else {
      AddReusesFree(st, free, obj);
      HandlesReuse(st, free, live, obj, NextAfter(st, free, 1));
    }
  }

  /** Slots below the handles are not touched by an operation on handles. */
  lemma LowSlotsKept(st: State, after: State, borrowed: seq<JsVal>)
    requires ConstantsKept(st) && BorrowsHeld(st, borrowed) && after.stackPointer == st.stackPointer
    requires |after.heap| >= FIRST_HANDLE && forall i :: 0 <= i < FIRST_HANDLE ==> after.heap[i] == st.heap[i]
    ensures ConstantsKept(after) && BorrowsHeld(after, borrowed)
  {
  }

  /** A new handle was not live, and everything else stays as it was. */
  lemma AddHolds(st: State, free: seq<nat>, live: map<nat, JsVal>, borrowed: seq<JsVal>, obj: JsVal)
    requires Holds(st, free, live, borrowed) && CanAdd(st)
    ensures var (after, idx) := AddHeapObject(st, obj);
            && idx !in live && idx >= FIRST_HANDLE
            && Holds(after, FreeAfterAdd(free), live[idx := obj], borrowed)
  {
    AddKeepsFreeList(st, free, obj);
    AddHoldsHandles(st, free, live, obj);
    LowSlotsKept(st, AddHeapObject(st, obj).0, borrowed);
  }

  lemma DropKeepsFreeList(st: State, free: seq<nat>, idx: nat)
    requires FreeList(st, free) && FIRST_HANDLE <= idx < |st.heap| && idx !in free
    ensures FreeList(DropObject(st, idx), [idx] + free)
  {
  }

  /** Dropping a live handle frees it and nothing else. */
  lemma DropHolds(st: State, free: seq<nat>, live: map<nat, JsVal>, borrowed: seq<JsVal>, idx: nat)
    requires Holds(st, free, live, borrowed) && idx in live
    ensures st.heap[idx] == live[idx]
    ensures Holds(DropObject(st, idx), [idx] + free, live - {idx}, borrowed)
  {
    DropKeepsFreeList(st, free, idx);
    LowSlotsKept(st, DropObject(st, idx), borrowed);
  }

  lemma BorrowHolds(st: State, free: seq<nat>, live: map<nat, JsVal>, borrowed: seq<JsVal>, obj: JsVal)
    requires Holds(st, free, live, borrowed)
    ensures AddBorrowedObject(st, obj).None? <==> |borrowed| == STACK_TOP - 1
    ensures AddBorrowedObject(st, obj).Some? ==> Holds(AddBorrowedObject(st, obj).value, free, live, [obj] + borrowed)
  {
  }

  lemma EndBorrowHolds(st: State, free: seq<nat>, live: map<nat, JsVal>, borrowed: seq<JsVal>)
    requires Holds(st, free, live, borrowed) && borrowed != []
    ensures st.heap[st.stackPointer] == borrowed[0]
    ensures Holds(EndBorrow(st), free, live, borrowed[1..])
  {
  }

  /** A closure called with a borrowed argument: push, call, and a `finally` that pops whether or not
      the push went through. The closure itself leaves the table as it found it. */
  function BorrowedCall(st: State, obj: JsVal): State
    requires 1 <= st.stackPointer < |st.heap|
  {
    match AddBorrowedObject(st, obj)
    case None => EndBorrow(st)
    case Some(during) => EndBorrow(during)
  }

  /** The call is balanced unless the stack was full: then the push fails, the pop does not, and the
      newest of the outer borrows is lost. */
  lemma BorrowedCallBalanced(st: State, free: seq<nat>, live: map<nat, JsVal>, borrowed: seq<JsVal>, obj: JsVal)
    requires Holds(st, free, live, borrowed)
    ensures 1 <= st.stackPointer < |st.heap|
    ensures Holds(BorrowedCall(st, obj), free, live, if |borrowed| < STACK_TOP - 1 then borrowed else borrowed[1..])
  {
    BorrowHolds(st, free, live, borrowed, obj);
    if |borrowed| < STACK_TOP - 1 {
      assert ([obj] + borrowed)[1..] == borrowed;
      EndBorrowHolds(AddBorrowedObject(st, obj).value, free, live, [obj] + borrowed);
    } else {
      EndBorrowHolds(st, free, live, borrowed);
    }
  }

  // ----- Whole runs -----

  datatype Op = Add(obj: JsVal) | Take(idx: nat) | Drop(idx: nat) | Borrow(obj: JsVal) | Unborrow

  /** What an operation gives its caller: a handle, an object, or nothing. */
  datatype Answer = Handle(idx: nat) | Object(obj: JsVal) | OutOfStack | Nothing

  /** The table as a user sees it: objects by handle and a stack of borrows. */
  datatype View = View(live: map<nat, JsVal>, borrowed: seq<JsVal>)

  /** Handles are given back only while live; borrows end only while there are some. */
  predicate Allowed(view: View, op: Op) {
    match op
    case Take(idx) => idx in view.live
    case Drop(idx) => idx in view.live
    case Unborrow => view.borrowed != []
    case _ => true
  }

  /** The behaviour promised to a user. Which fresh handle an object gets is left open. */
  ghost predicate Promised(before: View, op: Op, answer: Answer, after: View) {
    match op
    case Add(obj) =>
      answer.Handle? && answer.idx !in before.live && after == before.(live := before.live[answer.idx := obj])
    case Take(idx) => idx in before.live && answer == Object(before.live[idx]) && after == before.(live := before.live - {idx})
    case Drop(idx) => answer == Nothing && after == before.(live := before.live - {idx})
    case Borrow(obj) =>
      if |before.borrowed| == STACK_TOP - 1 then answer == OutOfStack && after == before
      else answer.Handle? && answer.idx + |before.borrowed| + 1 == STACK_TOP && after == before.(borrowed := [obj] + before.borrowed)
    case Unborrow => before.borrowed != [] && answer == Nothing && after == before.(borrowed := before.borrowed[1..])
  }

  /** One operation on the array; None where the code would read outside it or follow a slot that
      holds no index. */
  function Execute(st: State, op: Op): Option<(State, Answer)> {
    match op
    case Add(obj) =>
      if !CanAdd(st) then None
      else var (after, idx) := AddHeapObject(st, obj); Some((after, Handle(idx)))
    case Take(idx) => if idx >= |st.heap| then None else Some((DropObject(st, idx), Object(st.heap[idx])))
    case Drop(idx) => if idx >= |st.heap| then None else Some((DropObject(st, idx), Nothing))
    case Borrow(obj) =>
      if !(1 <= st.stackPointer <= |st.heap|) then None
      else
        (match AddBorrowedObject(st, obj)
         case None => Some((st, OutOfStack))
         case Some(after) => Some((after, Handle(after.stackPointer))))
    case Unborrow => if st.stackPointer >= |st.heap| then None else Some((EndBorrow(st), Nothing))
  }

  ghost predicate Represents(st: State, view: View) {
    exists free :: Holds(st, free, view.live, view.borrowed)
  }

  lemma StepAsPromised(st: State, view: View, op: Op) returns (after: View)
    requires Represents(st, view) && Allowed(view, op)
    ensures Execute(st, op).Some?
    ensures Represents(Execute(st, op).value.0, after) && Promised(view, op, Execute(st, op).value.1, after)
  {
    var free :| Holds(st, free, view.live, view.borrowed);
    match op
    case Add(obj) =>
      AddIsPossible(st, free, view.live, view.borrowed);
      AddHolds(st, free, view.live, view.borrowed, obj);
      after := view.(live := view.live[AddHeapObject(st, obj).1 := obj]);
      assert Holds(AddHeapObject(st, obj).0, FreeAfterAdd(free), after.live, after.borrowed);
    case Take(idx) =>
      DropHolds(st, free, view.live, view.borrowed, idx);
      after := view.(live := view.live - {idx});
      assert Holds(DropObject(st, idx), [idx] + free, after.live, after.borrowed);
    case Drop(idx) =>
      DropHolds(st, free, view.live, view.borrowed, idx);
      after := view.(live := view.live - {idx});
      assert Holds(DropObject(st, idx), [idx] + free, after.live, after.borrowed);
    case Borrow(obj) =>
      BorrowHolds(st, free, view.live, view.borrowed, obj);
      after := if |view.borrowed| == STACK_TOP - 1 then view else view.(borrowed := [obj] + view.borrowed);
      assert Holds(Execute(st, op).value.0, free, after.live, after.borrowed);
    case Unborrow =>
      EndBorrowHolds(st, free, view.live, view.borrowed);
      after := view.(borrowed := view.borrowed[1..]);
      assert Holds(EndBorrow(st), free, after.live, after.borrowed);
  }

  /** `ops` ran from `st` with `answers`, in line with the promise at every step. */
  ghost predicate RunsAsPromised(st: State, view: View, ops: seq<Op>)
    decreases |ops|
  {
    && Represents(st, view)
    && (ops != [] && Allowed(view, ops[0]) ==>
          && Execute(st, ops[0]).Some?
          && exists after :: Promised(view, ops[0], Execute(st, ops[0]).value.1, after) &&
                             RunsAsPromised(Execute(st, ops[0]).value.0, after, ops[1..]))
  }

  lemma {:induction false} RunKeepsPromise(st: State, view: View, ops: seq<Op>)
    requires Represents(st, view)
    ensures RunsAsPromised(st, view, ops)
    decreases |ops|
  {
    if ops != [] && Allowed(view, ops[0]) {
      var after := StepAsPromised(st, view, ops[0]);
      RunKeepsPromise(Execute(st, ops[0]).value.0, after, ops[1..]);
    }
  }

  /** Every run from the initial table, as long as it gives back only live handles: no handle is given
      out twice, an object comes back as it was added, other objects and the borrow stack are never
      disturbed, and the free list stays sound. */
  lemma EveryRunAsPromised(ops: seq<Op>)
    ensures RunsAsPromised(Initial(), View(map[], []), ops)
  {
    InitialHolds();
    assert Represents(Initial(), View(map[], []));
    RunKeepsPromise(Initial(), View(map[], []), ops);
  }

  lemma FreeStart(st: State, free: seq<nat>)
    requires FreeList(st, free)
    ensures st.heapNext == NextAfter(st, free, 0)
  {
  }

  lemma FreeEntry(st: State, free: seq<nat>, i: nat)
    requires FreeList(st, free) && i < |free|
    ensures FIRST_HANDLE <= free[i] < |st.heap| && st.heap[free[i]] == Num(NextAfter(st, free, i + 1))
  {
  }

  lemma FreeDistinct(st: State, free: seq<nat>, i: nat, j: nat)
    requires FreeList(st, free) && i < |free| && j < |free| && i != j
    ensures free[i] != free[j]
  {
  }

  /** After a free slot is dropped again, following the numbers leads through the old list from its
      start. */
  lemma {:induction false} OldListFollows(st: State, free: seq<nat>, k: nat, again: seq<nat>, i: nat)
    requires FreeList(st, free) && i <= k < |free| && free[k] < |st.heap| && FreeList(DropObject(st, free[k]), again)
    ensures i + 1 < |again| && again[0] == free[k] && again[i + 1] == free[i]
  {
    hide FreeList;
    var after := DropObject(st, free[k]);
    FreeEntry(st, free, k);
    FreeEntry(st, free, i);
    FreeStart(after, again);
    if i == 0 {
      FreeStart(st, free);
      FreeEntry(after, again, 0);
      assert after.heap[again[0]] == Num(free[0]);
    } else {
      OldListFollows(st, free, k, again, i - 1);
      FreeEntry(after, again, i);
      FreeEntry(st, free, i - 1);
      FreeDistinct(st, free, i - 1, k);
      assert after.heap[again[i]] == Num(free[i]);
    }
  }

  lemma FreeSlotDroppedAgain(st: State, free: seq<nat>, k: nat, again: seq<nat>)
    requires FreeList(st, free) && k < |free| && free[k] < |st.heap|
    ensures !FreeList(DropObject(st, free[k]), again)
  {
    hide FreeList;
    if FreeList(DropObject(st, free[k]), again) {
      OldListFollows(st, free, k, again, k);
      FreeDistinct(DropObject(st, free[k]), again, 0, k + 1);
    }
  }

  /** The restriction matters: dropping a slot leaves a sound free list exactly when the slot holds a
      live handle or belongs to the constants. A free one makes the list run in a circle. */
  lemma DropIsSoundExactlyWhen(st: State, free: seq<nat>, live: map<nat, JsVal>, borrowed: seq<JsVal>, idx: nat)
    requires Holds(st, free, live, borrowed) && idx < |st.heap|
    ensures (exists again :: FreeList(DropObject(st, idx), again)) <==> idx < FIRST_HANDLE || idx in live
  {
    if idx < FIRST_HANDLE {
      assert FreeList(DropObject(st, idx), free);
    } else if idx in live {
      DropKeepsFreeList(st, free, idx);
    } else {
      var k :| 0 <= k < |free| && free[k] == idx;
      forall again ensures !FreeList(DropObject(st, idx), again) { FreeSlotDroppedAgain(st, free, k, again); }
    }
  }

  /** The first free slot, dropped once more, is handed out for the next object and is still first in
      line after that: the object after it would get the same handle. */
  lemma DroppingTwiceAliases(st: State, free: seq<nat>, live: map<nat, JsVal>, borrowed: seq<JsVal>, obj: JsVal)
    requires Holds(st, free, live, borrowed) && free != []
    ensures var dropped := DropObject(st, free[0]);
            && CanAdd(dropped)
            && var (after, h) := AddHeapObject(dropped, obj);
            h == free[0] && after.heap[h] == obj && after.heapNext == h
  {
  }

  // ----- The table as it runs -----

  lemma LowIsNotLive(st: State, free: seq<nat>, live: map<nat, JsVal>, borrowed: seq<JsVal>, idx: nat)
    requires Holds(st, free, live, borrowed) && idx < FIRST_HANDLE
    ensures live - {idx} == live && DropObject(st, idx) == st
  {
  }

  class ObjectTable {
    var heap: seq<JsVal>
    var heapNext: nat
    var stackPointer: nat
    ghost var free: seq<nat>
    ghost var live: map<nat, JsVal>
    ghost var borrowed: seq<JsVal>

    ghost function Now(): State
      reads this
    {
      State(heap, heapNext, stackPointer)
    }

    ghost predicate Valid()
      reads this
    {
      Holds(Now(), free, live, borrowed)
    }

    constructor ()
      ensures Valid() && Now() == Initial() && live == map[] && borrowed == []
    {
      heap := seq(STACK_TOP, i => Undefined) + [Undefined, Null, Bool(true), Bool(false)];
      heapNext, stackPointer := FIRST_HANDLE, STACK_TOP;
      free, live, borrowed := [], map[], [];
      new;
      InitialHolds();
    }

    method Add(obj: JsVal) returns (idx: nat)
      requires Valid()
      modifies this
      ensures Valid() && idx !in old(live) && live == old(live)[idx := obj] && borrowed == old(borrowed)
      ensures (Now(), idx) == AddHeapObject(old(Now()), obj)
    {
      assert CanAdd(Now()) by { AddIsPossible(Now(), free, live, borrowed); }
      ghost var (after, handle) := AddHeapObject(Now(), obj);
      assert handle !in live && Holds(after, FreeAfterAdd(free), live[handle := obj], borrowed) by {
        AddHolds(Now(), free, live, borrowed, obj);
      }
      if heapNext == |heap| { heap := heap + [Num(|heap| + 1)]; }
      idx := heapNext;
      heapNext := heap[idx].n;
      heap := heap[idx := obj];
      assert Now() == after && idx == handle;
      free, live := FreeAfterAdd(free), live[idx := obj];
    }

    /** Any slot of the array may be named, as in the original. A live handle is freed, the constants stay;
        a slot that is already free leaves a table without a sound free list. */
    method Drop(idx: nat)
      requires Valid() && idx < |heap|
      modifies this
      ensures Now() == DropObject(old(Now()), idx)
      ensures idx < FIRST_HANDLE || idx in old(live) ==> Valid() && live == old(live) - {idx} && borrowed == old(borrowed)
      ensures idx >= FIRST_HANDLE && idx !in old(live) ==> forall again :: !FreeList(Now(), again)
    {
      DropIsSoundExactlyWhen(Now(), free, live, borrowed, idx);
      if idx < FIRST_HANDLE {
        LowIsNotLive(Now(), free, live, borrowed, idx);
        return;
      }
      if idx in live { DropHolds(Now(), free, live, borrowed, idx); }
      heap := heap[idx := Num(heapNext)];
      heapNext := idx;
      free, live := [idx] + free, live - {idx};
    }

    method Take(idx: nat) returns (ret: JsVal)
      requires Valid() && idx < |heap|
      modifies this
      ensures ret == old(heap)[idx] && Now() == DropObject(old(Now()), idx)
      ensures idx < FIRST_HANDLE || idx in old(live) ==> Valid() && live == old(live) - {idx} && borrowed == old(borrowed)
      ensures idx in old(live) ==> ret == old(live)[idx]
      ensures idx >= FIRST_HANDLE && idx !in old(live) ==> forall again :: !FreeList(Now(), again)
    {
      ret := heap[idx];
      Drop(idx);
    }

    method Borrow(obj: JsVal) returns (idx: Option<nat>)
      requires Valid()
      modifies this
      ensures Valid() && live == old(live)
      ensures if |old(borrowed)| == STACK_TOP - 1 then idx == None && Now() == old(Now()) && borrowed == old(borrowed)
              else idx == Some(stackPointer) && borrowed == [obj] + old(borrowed) && heap[stackPointer] == obj
    {
      assert 1 <= stackPointer <= |heap|;
      ghost var after := AddBorrowedObject(Now(), obj);
      assert (after.None? <==> |borrowed| == STACK_TOP - 1) && (after.Some? ==> Holds(after.value, free, live, [obj] + borrowed)) by {
        BorrowHolds(Now(), free, live, borrowed, obj);
      }
      if stackPointer == 1 { return None; }
      stackPointer := stackPointer - 1;
      heap := heap[stackPointer := obj];
      assert after == Some(Now());
      borrowed := [obj] + borrowed;
      return Some(stackPointer);
    }

    method PopBorrow()
      requires Valid() && borrowed != []
      modifies this
      ensures Valid() && live == old(live) && borrowed == old(borrowed)[1..]
    {
      EndBorrowHolds(Now(), free, live, borrowed);
      ghost var after := EndBorrow(Now());
      heap := heap[stackPointer := Undefined];
      stackPointer := stackPointer + 1;
      assert after == Now();
      borrowed := borrowed[1..];
    }
  }
}
