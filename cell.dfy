/** The borrow-checked cell of `src/cell.rs` and its guard `RefMut`.

    The cell holds one occupancy slot that may be changed through a shared
    handle. A borrow moves the value out into the guard and leaves the slot
    empty; dropping the guard moves the (possibly changed) value back. An empty
    slot is therefore the lock bit: it means a guard is outstanding. */
module Cells {
  import opened Common
  import Storage
  import OptSlot

  /** `BorrowError`: the value is already borrowed. */
  datatype BorrowError = BorrowError

  /** `try_borrow` as a transition of the slot alone: `Cell::take` always leaves
      the default (empty) slot behind, and what it took out is either the value
      or, when nothing was there, `BorrowError`. */
  function TryBorrowStep<T>(s: OptSlot.OptUnaligned<T>): (r: (Result<T, BorrowError>, OptSlot.OptUnaligned<T>))
    ensures !r.1.Some?
    ensures r.0.Ok? <==> s.Some?
    ensures r.0.Ok? ==> r.0.value == Storage.IntoInner(s.payload)
  {
    var taken := s;
    var left := OptSlot.Default();
    match OptSlot.IntoOption(taken)
    case None => (Err(BorrowError), left)
    case Some(u) => (Ok(Storage.IntoInner(u)), left)
  }

  /** What host code can do to one cell through shared handles: try to borrow
      it, or drop a guard it holds after leaving `value` in it. */
  datatype Event<T> = TryBorrow | DropGuard(value: T)

  /** The slot and the number of outstanding guards after `events`. Each
      `TryBorrow` is `TryBorrowStep`, adding a guard when it succeeds; each
      `DropGuard` is the write-back of `RefMut::drop`, removing a guard.
      Dropping a guard needs a guard to drop, so a `DropGuard` with none
      outstanding does not occur in a Rust program and changes nothing here.
      No value appears from nowhere: the final slot is the starting one, empty,
      or one that some dropped guard wrote back. */
  function Run<T>(s: OptSlot.OptUnaligned<T>, guards: nat, events: seq<Event<T>>): (r: (OptSlot.OptUnaligned<T>, nat))
    ensures || r.0 == s
            || !r.0.Some?
            || exists i :: 0 <= i < |events| && events[i].DropGuard? && r.0 == OptSlot.SomeOf(events[i].value)
    decreases |events|
  {
    if events == [] then (s, guards)
    else match events[0]
      case TryBorrow =>
        var (res, left) := TryBorrowStep(s);
        Run(left, if res.Ok? then guards + 1 else guards, events[1..])
      case DropGuard(v) =>
        if guards == 0 then Run(s, guards, events[1..])
        else Run(OptSlot.SomeOf(v), guards - 1, events[1..])
  }

  /** The exclusivity invariant: at most one guard, and the slot is empty
      exactly while that guard is outstanding. */
  ghost predicate Exclusive<T>(s: OptSlot.OptUnaligned<T>, guards: nat)
  {
    guards <= 1 && (!s.Some? <==> guards == 1)
  }

  /** Every sequence of borrows and guard drops keeps the exclusivity
      invariant, starting from a newly built cell or any state that has it. */
  lemma {:induction false} RunKeepsExclusive<T>(s: OptSlot.OptUnaligned<T>, guards: nat, events: seq<Event<T>>)
    requires Exclusive(s, guards)
    ensures Exclusive(Run(s, guards, events).0, Run(s, guards, events).1)
    decreases |events|
  {
    if events != [] {
      match events[0]
      case TryBorrow =>
        var (res, left) := TryBorrowStep(s);
        RunKeepsExclusive(left, if res.Ok? then guards + 1 else guards, events[1..]);
      case DropGuard(v) =>
        if guards == 0 {
          RunKeepsExclusive(s, guards, events[1..]);
        } else {
          RunKeepsExclusive(OptSlot.SomeOf(v), guards - 1, events[1..]);
        }
    }
  }

  /** While a guard is outstanding a second borrow fails, leaves the slot
      empty and hands out no guard; dropping the guard after it left `v`
      behind refills the slot with `v` and releases the lock, so the next
      borrow succeeds and yields `v`. */
  lemma BorrowWhileBorrowed<T>(s: OptSlot.OptUnaligned<T>, v: T)
    requires Exclusive(s, 1)
    ensures TryBorrowStep(s).0.Err? && !TryBorrowStep(s).1.Some?
    ensures Run(s, 1, [TryBorrow]) == (OptSlot.None, 1)
    ensures Run(s, 1, [DropGuard(v)]) == (OptSlot.SomeOf(v), 0)
    ensures TryBorrowStep(Run(s, 1, [DropGuard(v)]).0).0 == Ok(v)
  {
  }

  /** A leaked guard is never dropped: whatever borrows follow, the slot stays
      empty, so consuming the cell reports the leak instead of yielding a stale
      or default value. */
  lemma {:induction false} LeakedBorrowStaysEmpty<T>(v: T, later: seq<Event<T>>)
    requires forall i :: 0 <= i < |later| ==> later[i].TryBorrow?
    ensures !Run(OptSlot.SomeOf(v), 0, [TryBorrow] + later).0.Some?
  {
    assert ([TryBorrow] + later)[1..] == later;
    EmptyStaysEmpty(OptSlot.None, 1, later);
  }

  /** Borrow attempts alone never refill an empty slot and hand out no guard. */
  lemma {:induction false} EmptyStaysEmpty<T>(s: OptSlot.OptUnaligned<T>, guards: nat, later: seq<Event<T>>)
    requires !s.Some?
    requires forall i :: 0 <= i < |later| ==> later[i].TryBorrow?
    ensures !Run(s, guards, later).0.Some? && Run(s, guards, later).1 == guards
    decreases |later|
  {
    if later != [] {
      EmptyStaysEmpty(TryBorrowStep(s).1, guards, later[1..]);
    }
  }

  /** `RefMut`: owns the value moved out of `cell` in an aligned place; `data`
      is what `Deref`/`DerefMut` read and write. */
  class RefMut<T> {
    var data: T
    const cell: UnalignedCell<T>
    /** The guard has not been dropped yet. */
    ghost var live: bool

    /** Built only by `try_borrow`, right after it emptied `cell`; the fields
        are private, so no other code can build a second guard on a cell that
        is already borrowed. Building the guard marks the cell borrowed. */
    constructor (data: T, cell: UnalignedCell<T>)
      requires !cell.slot.Some? && !cell.borrowed
      modifies cell
      ensures this.data == data && this.cell == cell && live
      ensures cell.borrowed && cell.slot == old(cell.slot) && cell.Valid()
    {
      this.data := data;
      this.cell := cell;
      live := true;
      cell.borrowed := true;
    }

    /** `RefMut::drop`: move the (possibly changed) value back into the cell,
        which is empty while its one guard is live. A guard is dropped once. */
    method Drop()
      requires live && cell.borrowed && !cell.slot.Some?
      modifies this, cell
      ensures cell.slot == OptSlot.SomeOf(old(data)) && !live
      ensures !cell.borrowed && cell.Valid()
    {
      var value := data;
      cell.slot := OptSlot.SomeOf(value);
      live := false;
      cell.borrowed := false;
    }
  }

  /** `UnalignedCell<T>`: a slot that can be changed through shared handles. */
  class UnalignedCell<T> {
    var slot: OptSlot.OptUnaligned<T>
    /** A live `RefMut` on this cell exists. */
    ghost var borrowed: bool

    /** The lock bit is the empty slot: the cell is borrowed exactly while its
        slot is empty (a leaked guard keeps it borrowed for good). */
    ghost predicate Valid()
      reads this
    {
      borrowed <==> !slot.Some?
    }

    /** `UnalignedCell::new`: an occupied cell holding `value`. */
    constructor (value: T)
      ensures slot == OptSlot.SomeOf(value) && Valid()
    {
      slot := OptSlot.SomeOf(value);
      borrowed := false;
    }

    /** `UnalignedCell::into_inner`: the held value. Panics (here: may not be
        called) when the slot is empty, i.e. when a borrow was leaked. */
    method IntoInner() returns (value: T)
      requires slot.Some?
      ensures OptSlot.SomeOf(value) == slot
    {
      var opt := OptSlot.IntoOption(slot);
      value := Storage.IntoInner(opt.value);
    }

    /** `UnalignedCell::try_borrow`: on an occupied cell, a live guard holding
        the value, and the cell is left empty; on an empty cell, `BorrowError`,
        and the cell stays empty. */
    method TryBorrow() returns (r: Result<RefMut<T>, BorrowError>)
      requires Valid()
      modifies this
      ensures Valid() && borrowed
      ensures slot == TryBorrowStep(old(slot)).1
      ensures r.Ok? <==> TryBorrowStep(old(slot)).0.Ok?
      ensures r.Ok? ==> fresh(r.value) && r.value.cell == this && r.value.live
                        && r.value.data == TryBorrowStep(old(slot)).0.value
    {
      var taken := slot;
      slot := OptSlot.Default();
      var opt := OptSlot.IntoOption(taken);
      if opt.None? {
        return Err(BorrowError);
      }
      var guard := new RefMut(Storage.IntoInner(opt.value), this);
      return Ok(guard);
    }

    /** `UnalignedCell::borrow`: `try_borrow` that panics on `BorrowError`, so
        only an occupied cell may be borrowed. */
    method Borrow() returns (guard: RefMut<T>)
      requires Valid() && slot.Some?
      modifies this
      ensures Valid() && borrowed
      ensures fresh(guard) && guard.cell == this && guard.live
      ensures guard.data == Storage.IntoInner(old(slot).payload) && !slot.Some?
    {
      var r := TryBorrow();
      guard := r.value;
    }

    /** `UnalignedCell::get_mut`: with exclusive access no check is needed, but
        the slot must be occupied (`unwrap`). `u` is the shim the returned
        reference points at; `update` is the caller's write through it. */
    method GetMut(update: Storage.Unaligned<T> -> Storage.Unaligned<T>) returns (u: Storage.Unaligned<T>)
      requires Valid() && slot.Some?
      modifies this
      ensures Valid()
      ensures u == old(slot).payload && slot == OptSlot.Some(update(u))
    {
      u := OptSlot.IntoOption(slot).value;
      slot := OptSlot.AsOptionMut(slot, update);
    }

    /** `UnalignedCell::swap`: two distinct occupied cells exchange contents.
        Swapping a cell with itself, or with a borrowed cell, panics. */
    method Swap(other: UnalignedCell<T>)
      requires this != other && Valid() && other.Valid() && slot.Some? && other.slot.Some?
      modifies this, other
      ensures Valid() && other.Valid()
      ensures slot == old(other.slot) && other.slot == old(slot)
    {
      var mine := Borrow();
      var theirs := other.Borrow();
      mine.data, theirs.data := theirs.data, mine.data;
      theirs.Drop();
      mine.Drop();
    }

    /** `UnalignedCell::replace`: store `value`, return the former value. */
    method Replace(value: T) returns (previous: T)
      requires Valid() && slot.Some?
      modifies this
      ensures Valid()
      ensures previous == Storage.IntoInner(old(slot).payload) && slot == OptSlot.SomeOf(value)
    {
      var guard := Borrow();
      previous := guard.data;
      guard.data := value;
      guard.Drop();
    }

    /** `UnalignedCell::replace_with`: `f` gets the borrowed value by `&mut`
        and returns the new value; the value `f` left behind is returned and the
        new one stored. If `f` panics, the guard still writes back what `f`
        left behind. */
    method ReplaceWith(f: T -> Exit<T, T>) returns (out: Outcome<T>)
      requires Valid() && slot.Some?
      modifies this
      ensures Valid()
      ensures var exit := f(Storage.IntoInner(old(slot).payload));
              && slot == OptSlot.SomeOf(if exit.Return? then exit.result else exit.arg)
              && (out.Completed? <==> exit.Return?)
              && (out.Completed? ==> out.value == exit.arg)
    {
      var guard := Borrow();
      var exit := f(guard.data);
      guard.data := exit.arg;
      if exit.Return? {
        out := Completed(guard.data);
        guard.data := exit.result;
      } else {
        out := Unwound;
      }
      guard.Drop();
    }

    /** `UnalignedCell::take`: `replace` with `T::default()`, given as
        `defaultValue`. */
    method Take(defaultValue: T) returns (previous: T)
      requires Valid() && slot.Some?
      modifies this
      ensures Valid()
      ensures previous == Storage.IntoInner(old(slot).payload) && slot == OptSlot.SomeOf(defaultValue)
    {
      previous := Replace(defaultValue);
    }

    /** `Clone::clone` with `T`'s `clone` given as `clone`: borrow, clone the
        borrowed value into a new cell, release. The original is unchanged. */
    method Clone(clone: T -> T) returns (c: UnalignedCell<T>)
      requires Valid() && slot.Some?
      modifies this
      ensures Valid() && fresh(c) && c.Valid() && slot == old(slot)
      ensures c.slot == OptSlot.SomeOf(clone(Storage.IntoInner(old(slot).payload)))
    {
      var guard := Borrow();
      c := new UnalignedCell(clone(guard.data));
      guard.Drop();
    }

    /** The shape shared by every comparison of `src/cell.rs`: apply `T`'s own
        operation `op` to the two contents. When both operands are this very
        cell it borrows once and hands that one value to both sides, so the
        result is `op(v, v)` whether or not `op` is reflexive. Both cells end as
        they began. */
    method Compare<R>(other: UnalignedCell<T>, op: (T, T) -> R) returns (r: R)
      requires Valid() && other.Valid() && slot.Some? && other.slot.Some?
      modifies this, other
      ensures Valid() && other.Valid()
      ensures slot == old(slot) && other.slot == old(other.slot)
      ensures r == op(Storage.IntoInner(old(slot).payload), Storage.IntoInner(old(other.slot).payload))
    {
      if this == other {
        var value := Borrow();
        r := op(value.data, value.data);
        value.Drop();
      } else {
        var lhs := Borrow();
        var rhs := other.Borrow();
        r := op(lhs.data, rhs.data);
        rhs.Drop();
        lhs.Drop();
      }
    }

    /** `PartialEq::eq` with `T`'s `==` given as `eq`. */
    method Eq(other: UnalignedCell<T>, eq: (T, T) -> bool) returns (r: bool)
      requires Valid() && other.Valid() && slot.Some? && other.slot.Some?
      modifies this, other
      ensures Valid() && other.Valid()
      ensures slot == old(slot) && other.slot == old(other.slot)
      ensures r == eq(Storage.IntoInner(old(slot).payload), Storage.IntoInner(old(other.slot).payload))
    {
      r := Compare(other, eq);
    }

    /** `PartialOrd::partial_cmp` with `T`'s `partial_cmp` given as `cmp`. */
    method PartialCmp(other: UnalignedCell<T>, cmp: (T, T) -> Option<Ordering>) returns (r: Option<Ordering>)
      requires Valid() && other.Valid() && slot.Some? && other.slot.Some?
      modifies this, other
      ensures Valid() && other.Valid()
      ensures slot == old(slot) && other.slot == old(other.slot)
      ensures r == cmp(Storage.IntoInner(old(slot).payload), Storage.IntoInner(old(other.slot).payload))
    {
      r := Compare(other, cmp);
    }

    /** `PartialOrd::lt` with `T`'s `<` given as `lt`. */
    method Lt(other: UnalignedCell<T>, lt: (T, T) -> bool) returns (r: bool)
      requires Valid() && other.Valid() && slot.Some? && other.slot.Some?
      modifies this, other
      ensures Valid() && other.Valid()
      ensures slot == old(slot) && other.slot == old(other.slot)
      ensures r == lt(Storage.IntoInner(old(slot).payload), Storage.IntoInner(old(other.slot).payload))
    {
      r := Compare(other, lt);
    }

    /** `PartialOrd::le` with `T`'s `<=` given as `le`. */
    method Le(other: UnalignedCell<T>, le: (T, T) -> bool) returns (r: bool)
      requires Valid() && other.Valid() && slot.Some? && other.slot.Some?
      modifies this, other
      ensures Valid() && other.Valid()
      ensures slot == old(slot) && other.slot == old(other.slot)
      ensures r == le(Storage.IntoInner(old(slot).payload), Storage.IntoInner(old(other.slot).payload))
    {
      r := Compare(other, le);
    }

    /** `PartialOrd::gt` with `T`'s `>` given as `gt`. */
    method Gt(other: UnalignedCell<T>, gt: (T, T) -> bool) returns (r: bool)
      requires Valid() && other.Valid() && slot.Some? && other.slot.Some?
      modifies this, other
      ensures Valid() && other.Valid()
      ensures slot == old(slot) && other.slot == old(other.slot)
      ensures r == gt(Storage.IntoInner(old(slot).payload), Storage.IntoInner(old(other.slot).payload))
    {
      r := Compare(other, gt);
    }

    /** `PartialOrd::ge` with `T`'s `>=` given as `ge`. */
    method Ge(other: UnalignedCell<T>, ge: (T, T) -> bool) returns (r: bool)
      requires Valid() && other.Valid() && slot.Some? && other.slot.Some?
      modifies this, other
      ensures Valid() && other.Valid()
      ensures slot == old(slot) && other.slot == old(other.slot)
      ensures r == ge(Storage.IntoInner(old(slot).payload), Storage.IntoInner(old(other.slot).payload))
    {
      r := Compare(other, ge);
    }

    /** `Ord::cmp` with `T`'s `cmp` given as `cmp`. */
    method Cmp(other: UnalignedCell<T>, cmp: (T, T) -> Ordering) returns (r: Ordering)
      requires Valid() && other.Valid() && slot.Some? && other.slot.Some?
      modifies this, other
      ensures Valid() && other.Valid()
      ensures slot == old(slot) && other.slot == old(other.slot)
      ensures r == cmp(Storage.IntoInner(old(slot).payload), Storage.IntoInner(old(other.slot).payload))
    {
      r := Compare(other, cmp);
    }

    /** `Ord::max`: consume both cells (each must not be leaked) and build a
        new cell holding `T::max` of the contents. */
    method Max(other: UnalignedCell<T>, max: (T, T) -> T) returns (c: UnalignedCell<T>)
      requires slot.Some? && other.slot.Some?
      ensures fresh(c) && c.Valid()
      ensures c.slot == OptSlot.SomeOf(max(Storage.IntoInner(slot.payload), Storage.IntoInner(other.slot.payload)))
    {
      var a := IntoInner();
      var b := other.IntoInner();
      c := new UnalignedCell(max(a, b));
    }

    /** `Ord::min`: as `Max`, with `T::min`. */
    method Min(other: UnalignedCell<T>, min: (T, T) -> T) returns (c: UnalignedCell<T>)
      requires slot.Some? && other.slot.Some?
      ensures fresh(c) && c.Valid()
      ensures c.slot == OptSlot.SomeOf(min(Storage.IntoInner(slot.payload), Storage.IntoInner(other.slot.payload)))
    {
      var a := IntoInner();
      var b := other.IntoInner();
      c := new UnalignedCell(min(a, b));
    }

    /** `Ord::clamp`: consume the three cells and build a new cell holding
        `T::clamp` of the contents. */
    method Clamp(lo: UnalignedCell<T>, hi: UnalignedCell<T>, clamp: (T, T, T) -> T) returns (c: UnalignedCell<T>)
      requires slot.Some? && lo.slot.Some? && hi.slot.Some?
      ensures fresh(c) && c.Valid()
      ensures c.slot == OptSlot.SomeOf(clamp(Storage.IntoInner(slot.payload), Storage.IntoInner(lo.slot.payload),
                                             Storage.IntoInner(hi.slot.payload)))
    {
      var v := IntoInner();
      var a := lo.IntoInner();
      var b := hi.IntoInner();
      c := new UnalignedCell(clamp(v, a, b));
    }
  }
}
