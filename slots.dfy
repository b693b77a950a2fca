/** The 14-entry slot table a client keeps of the players it is shown.
    Go keeps it as a `map[int]*slotInfo` whose keys are always 0..13, a nil
    value marking an empty slot; here it is a sequence indexed by the key.
    Entries are compared by the identity of the client they hold, so the
    table is generic in the client type. */
module Slots {
  import opened Bytes

  /** `slotInfo`: the client shown in a slot, and whether it was placed there
      since the last slot update was sent (so its full description is due). */
  datatype SlotInfo<C> = SlotInfo(justAdded: bool, client: C)

  type Table<C> = seq<Option<SlotInfo<C>>>

  const SlotCount: nat := 14

  predicate Holds<C(==)>(e: Option<SlotInfo<C>>, x: C)
  {
    e.Some? && e.value.client == x
  }

  /** The table `newClient` and a re-handshake create: 14 empty slots. */
  function EmptyTable<C>(): (t: Table<C>)
    ensures |t| == SlotCount && forall i :: 0 <= i < |t| ==> t[i] == None
  {
    seq(SlotCount, _ => None)
  }

  predicate AllEmpty<C>(t: Table<C>)
  {
    forall i :: 0 <= i < |t| ==> t[i] == None
  }

  /** How many slots hold x. */
  function CountIn<C(==)>(t: Table<C>, x: C): nat
  {
    if t == [] then 0
    else CountIn(t[..|t| - 1], x) + (if Holds(t[|t| - 1], x) then 1 else 0)
  }

  /** The clients of the occupied slots, in index order (`oldPlayers`). */
  function Occupants<C>(t: Table<C>): seq<C>
  {
    if t == [] then []
    else Occupants(t[..|t| - 1]) + (if t[|t| - 1].Some? then [t[|t| - 1].value.client] else [])
  }

  /** The lowest index at or after `from` that holds x, or -1. */
  function IndexFrom<C(==)>(t: Table<C>, x: C, from: nat): (r: int)
    requires from <= |t|
    ensures r == -1 || (from <= r < |t| && Holds(t[r], x))
    ensures forall j :: from <= j < |t| && (r == -1 || j < r) ==> !Holds(t[j], x)
    decreases |t| - from
  {
    if from == |t| then -1
    else if Holds(t[from], x) then from
    else IndexFrom(t, x, from + 1)
  }

  /** `removeSlot(x)` on a table: the first slot holding x (in the index order
      this model iterates in) is emptied; nothing changes if none holds x. */
  function RemoveFirst<C(==)>(t: Table<C>, x: C): Table<C>
  {
    var i := IndexFrom(t, x, 0);
    if i == -1 then t else t[i := None]
  }

  /** The lowest empty index, or the last index when every slot is taken
      (the index `addSlot` writes). */
  function AddIndex<C>(t: Table<C>, from: nat): (r: nat)
    requires from < |t|
    ensures from <= r < |t|
    ensures t[r] == None || (r == |t| - 1 && forall j :: from <= j < |t| ==> t[j].Some?)
    ensures forall j :: from <= j < r ==> t[j].Some?
    decreases |t| - from
  {
    if t[from] == None then from
    else if from == |t| - 1 then from
    else AddIndex(t, from + 1)
  }

  /** `addSlot(x)` on a table. */
  function Add<C>(t: Table<C>, x: C): Table<C>
    requires |t| >= 1
  {
    t[AddIndex(t, 0) := Some(SlotInfo(true, x))]
  }

  /** x removed k times. */
  function RemoveN<C(==)>(t: Table<C>, x: C, k: nat): (r: Table<C>)
    ensures |r| == |t|
  {
    if k == 0 then t else RemoveFirst(RemoveN(t, x, k - 1), x)
  }

  /** x added k times. */
  function AddN<C>(t: Table<C>, x: C, k: nat): (r: Table<C>)
    requires |t| >= 1
    ensures |r| == |t|
  {
    if k == 0 then t else Add(AddN(t, x, k - 1), x)
  }

  /** Every slot holding x emptied. */
  function ClearAll<C(==)>(t: Table<C>, x: C): (r: Table<C>)
    ensures |r| == |t|
  {
    seq(|t|, i requires 0 <= i < |t| => if Holds(t[i], x) then None else t[i])
  }

  /** A slot with its `JustAdded` flag cleared. */
  function Cleared<C>(e: Option<SlotInfo<C>>): (r: Option<SlotInfo<C>>)
    ensures r.Some? <==> e.Some?
    ensures r.Some? ==> r.value.client == e.value.client && !r.value.justAdded
  {
    if e.Some? then Some(SlotInfo(false, e.value.client)) else None
  }

  /** Every `JustAdded` flag cleared, as after a slot update is sent. */
  function ClearFlags<C>(t: Table<C>): (r: Table<C>)
    ensures |r| == |t| && forall i :: 0 <= i < |t| ==> r[i] == Cleared(t[i])
  {
    seq(|t|, i requires 0 <= i < |t| => Cleared(t[i]))
  }

  /** Every occupied slot holds x. */
  predicate OwnerOnly<C(==)>(t: Table<C>, x: C)
  {
    forall i :: 0 <= i < |t| && t[i].Some? ==> t[i].value.client == x
  }

  lemma {:induction false} CountInZero<C>(t: Table<C>, x: C)
    ensures CountIn(t, x) == 0 <==> forall i :: 0 <= i < |t| ==> !Holds(t[i], x)
  {
    if t != [] {
      CountInZero(t[..|t| - 1], x);
      assert forall i :: 0 <= i < |t| - 1 ==> t[..|t| - 1][i] == t[i];
    }
  }

  /** Emptying a slot that holds x lowers x's count by one and no other count. */
  lemma {:induction false} CountInClear<C>(t: Table<C>, i: nat, y: C)
    requires i < |t| && t[i].Some?
    ensures CountIn(t[i := None], y) == CountIn(t, y) - (if Holds(t[i], y) then 1 else 0)
  {
    var n := |t| - 1;
    if i < n {
      CountInClear(t[..n], i, y);
      assert t[i := None][..n] == t[..n][i := None];
    } else {
      assert t[i := None][..n] == t[..n];
    }
  }

  /** `removeSlot(x)`: one slot that held x is now empty and every other slot
      is as before; when no slot held x, the table is unchanged. */
  lemma RemoveFirstSpec<C>(t: Table<C>, x: C)
    ensures |RemoveFirst(t, x)| == |t|
    ensures CountIn(t, x) == 0 ==> RemoveFirst(t, x) == t
    ensures CountIn(t, x) > 0 ==> exists i :: 0 <= i < |t| && Holds(t[i], x) && RemoveFirst(t, x) == t[i := None]
    ensures CountIn(RemoveFirst(t, x), x) == if CountIn(t, x) == 0 then 0 else CountIn(t, x) - 1
  {
    CountInZero(t, x);
    var i := IndexFrom(t, x, 0);
    if i != -1 {
      CountInClear(t, i, x);
    }
  }

  /** `addSlot(x)`: x, flagged just added, is in the lowest empty slot, or in
      the last slot when the table is full; every other slot is as before. */
  lemma AddSpec<C>(t: Table<C>, x: C)
    requires |t| >= 1
    ensures exists i :: (0 <= i < |t| && Add(t, x) == t[i := Some(SlotInfo(true, x))] &&
                         (t[i] == None || (i == |t| - 1 && forall j :: 0 <= j < |t| ==> t[j].Some?)) &&
                         (forall j :: 0 <= j < i ==> t[j].Some?))
  {
    var i := AddIndex(t, 0);
    assert Add(t, x) == t[i := Some(SlotInfo(true, x))];
  }

  /** Removing x as many times as it occurs empties exactly x's slots. */
  lemma {:induction false} RemoveNAll<C>(t: Table<C>, x: C, k: nat)
    requires k >= CountIn(t, x)
    ensures RemoveN(t, x, k) == ClearAll(t, x)
    decreases k
  {
    if k == 0 {
      CountInZero(t, x);
      assert ClearAll(t, x) == t;
    } else if CountIn(t, x) == 0 {
      RemoveNAll(t, x, k - 1);
      ClearAllCount(t, x);
      RemoveFirstSpec(RemoveN(t, x, k - 1), x);
    } else {
      var i := IndexFrom(t, x, 0);
      CountInZero(t, x);
      assert i != -1;
      CountInClear(t, i, x);
      var t' := t[i := None];
      RemoveNShift(t, x, k - 1);
      RemoveNAll(t', x, k - 1);
      ClearAllAfterClear(t, i, x);
    }
  }

  lemma ClearAllCount<C>(t: Table<C>, x: C)
    ensures CountIn(ClearAll(t, x), x) == 0
  {
    CountInZero(ClearAll(t, x), x);
  }

  lemma ClearAllAfterClear<C>(t: Table<C>, i: nat, x: C)
    requires i < |t| && Holds(t[i], x)
    ensures ClearAll(t[i := None], x) == ClearAll(t, x)
  {
  }

  /** Removing k + 1 times is removing the first occurrence, then k more. */
  lemma {:induction false} RemoveNShift<C>(t: Table<C>, x: C, k: nat)
    ensures RemoveN(t, x, k + 1) == RemoveN(RemoveFirst(t, x), x, k)
  {
    if k > 0 {
      RemoveNShift(t, x, k - 1);
    }
  }

  /** Removing and adding x keep a table that only ever holds x doing so. */
  lemma {:induction false} OwnerOnlyRemoveN<C>(t: Table<C>, x: C, k: nat)
    requires OwnerOnly(t, x)
    ensures OwnerOnly(RemoveN(t, x, k), x)
  {
    if k > 0 {
      OwnerOnlyRemoveN(t, x, k - 1);
    }
  }

  lemma {:induction false} OwnerOnlyAddN<C>(t: Table<C>, x: C, k: nat)
    requires |t| >= 1 && OwnerOnly(t, x)
    ensures OwnerOnly(AddN(t, x, k), x)
  {
    if k > 0 {
      OwnerOnlyAddN(t, x, k - 1);
      var u := AddN(t, x, k - 1);
      assert Add(u, x) == u[AddIndex(u, 0) := Some(SlotInfo(true, x))];
    }
  }

  /** A table whose only occupant is x is empty once x's slots are cleared. */
  lemma OwnerOnlyClearAll<C>(t: Table<C>, x: C)
    requires OwnerOnly(t, x)
    ensures AllEmpty(ClearAll(t, x)) && AllEmpty(ClearFlags(ClearAll(t, x)))
  {
  }

  /** Clearing the flags leaves exactly the same occupants in the same slots. */
  lemma ClearFlagsKeeps<C>(t: Table<C>)
    ensures forall i :: 0 <= i < |t| ==> (ClearFlags(t)[i].Some? <==> t[i].Some?)
    ensures forall i :: 0 <= i < |t| && t[i].Some? ==> ClearFlags(t)[i].value.client == t[i].value.client && !ClearFlags(t)[i].value.justAdded
  {
  }

  /** The occupants listed for `oldPlayers` count each client once per slot it holds. */
  lemma {:induction false} OccupantsCount<C>(t: Table<C>, x: C)
    ensures multiset(Occupants(t))[x] == CountIn(t, x)
  {
    if t != [] {
      OccupantsCount(t[..|t| - 1], x);
    }
  }

  /** What `recalculateSlots`, as written, does to the table t of client z.
      `mine` is the recalculating client's table before the call and `near` its
      close clients. The loop variable shadows the receiver, so each removed
      occupant y runs `y.removeSlot(y)` and each added neighbour y runs
      `y.addSlot(y)`: z's own table loses z once for each slot of `mine` that
      z held, when z is no longer near, and gains z once for each time z is
      near, when `mine` did not show z. */
  function ShadowedRecalc<C(==)>(t: Table<C>, z: C, mine: Table<C>, near: multiset<C>): (r: Table<C>)
    requires |t| >= 1
    ensures |r| == |t|
  {
    var removals := if z in near then 0 else CountIn(mine, z);
    var additions := if CountIn(mine, z) > 0 then 0 else near[z];
    AddN(RemoveN(t, z, removals), z, additions)
  }

  /** A table that only ever holds its owner keeps doing so. */
  lemma ShadowedRecalcOwnerOnly<C>(t: Table<C>, z: C, mine: Table<C>, near: multiset<C>)
    requires |t| >= 1 && OwnerOnly(t, z)
    ensures OwnerOnly(ShadowedRecalc(t, z, mine, near), z)
  {
    var removals := if z in near then 0 else CountIn(mine, z);
    OwnerOnlyRemoveN(t, z, removals);
    OwnerOnlyAddN(RemoveN(t, z, removals), z, if CountIn(mine, z) > 0 then 0 else near[z]);
  }

  /** The recalculating client's own table, when it only holds that client, is
      emptied: the client is never near itself, so each of its slots is a
      removal. */
  lemma ShadowedRecalcSelf<C>(mine: Table<C>, me: C, near: multiset<C>)
    requires |mine| >= 1 && OwnerOnly(mine, me) && me !in near
    ensures ShadowedRecalc(mine, me, mine, near) == ClearAll(mine, me)
    ensures AllEmpty(ShadowedRecalc(mine, me, mine, near))
  {
    RemoveNAll(mine, me, CountIn(mine, me));
    OwnerOnlyClearAll(mine, me);
  }

  /** A client the recalculating client did not show gets itself added to its
      own table once for each time it is near; a client that was shown and is
      still near keeps its table. */
  lemma ShadowedRecalcCases<C>(t: Table<C>, z: C, mine: Table<C>, near: multiset<C>)
    requires |t| >= 1
    ensures CountIn(mine, z) == 0 ==> ShadowedRecalc(t, z, mine, near) == AddN(t, z, near[z])
    ensures CountIn(mine, z) > 0 && z in near ==> ShadowedRecalc(t, z, mine, near) == t
    ensures CountIn(mine, z) > 0 && z !in near ==> ShadowedRecalc(t, z, mine, near) == RemoveN(t, z, CountIn(mine, z))
  {
  }

  /** Overwriting slot i changes the count of y by what left and what arrived. */
  lemma {:induction false} CountInUpdate<C>(t: Table<C>, i: nat, e: Option<SlotInfo<C>>, y: C)
    requires i < |t|
    ensures CountIn(t[i := e], y) == CountIn(t, y) - (if Holds(t[i], y) then 1 else 0) + (if Holds(e, y) then 1 else 0)
  {
    var n := |t| - 1;
    if i < n {
      CountInUpdate(t[..n], i, e, y);
      assert t[i := e][..n] == t[..n][i := e];
    } else {
      assert t[i := e][..n] == t[..n];
    }
  }

  /** Removing and adding x never raise the count of another client. */
  lemma {:induction false} RemoveNOther<C>(t: Table<C>, x: C, k: nat, y: C)
    requires y != x
    ensures CountIn(RemoveN(t, x, k), y) == CountIn(t, y)
  {
    if k > 0 {
      RemoveNOther(t, x, k - 1, y);
      var u := RemoveN(t, x, k - 1);
      var i := IndexFrom(u, x, 0);
      if i != -1 {
        CountInUpdate(u, i, None, y);
      }
    }
  }

  lemma {:induction false} AddNOther<C>(t: Table<C>, x: C, k: nat, y: C)
    requires |t| >= 1 && y != x
    ensures CountIn(AddN(t, x, k), y) <= CountIn(t, y)
  {
    if k > 0 {
      AddNOther(t, x, k - 1, y);
      var u := AddN(t, x, k - 1);
      CountInUpdate(u, AddIndex(u, 0), Some(SlotInfo(true, x)), y);
    }
  }

  /** After `ShadowedRecalc` a table holds no client other than its owner that
      it did not hold before. */
  lemma ShadowedRecalcOther<C>(t: Table<C>, z: C, mine: Table<C>, near: multiset<C>, y: C)
    requires |t| >= 1 && y != z
    ensures CountIn(ShadowedRecalc(t, z, mine, near), y) <= CountIn(t, y)
  {
    var removals := if z in near then 0 else CountIn(mine, z);
    RemoveNOther(t, z, removals, y);
    AddNOther(RemoveN(t, z, removals), z, if CountIn(mine, z) > 0 then 0 else near[z], y);
  }

  /** Clearing the flags keeps every count. */
  lemma {:induction false} ClearFlagsCount<C>(t: Table<C>, y: C)
    ensures CountIn(ClearFlags(t), y) == CountIn(t, y)
  {
    if t != [] {
      ClearFlagsCount(t[..|t| - 1], y);
      assert ClearFlags(t)[..|t| - 1] == ClearFlags(t[..|t| - 1]);
    }
  }

  /** A client is an occupant exactly when some slot holds it. */
  lemma OccupantsHold<C>(t: Table<C>, y: C)
    ensures y in Occupants(t) <==> CountIn(t, y) > 0
    ensures y in Occupants(t) <==> exists i :: 0 <= i < |t| && Holds(t[i], y)
  {
    OccupantsCount(t, y);
    CountInZero(t, y);
  }

  /** A table holding only x has no other occupant. */
  lemma OwnerOnlyOccupants<C>(t: Table<C>, x: C)
    requires OwnerOnly(t, x)
    ensures forall y :: y in Occupants(t) ==> y == x
  {
    forall y | y in Occupants(t)
      ensures y == x
    {
      OccupantsHold(t, y);
    }
  }
}
