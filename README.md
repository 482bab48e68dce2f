# unaligned — a Dafny model

The `unaligned` crate stores a value at any byte alignment. A storage shim,
`Unaligned<T>`, only lets code reach the stored value by copying it out to an
aligned temporary and writing it back. A borrow-checked cell,
`UnalignedCell<T>`, builds a runtime exclusivity lock on top of that shim: a
borrow moves the value out into a guard (`RefMut`) and leaves the cell's
occupancy slot (`OptUnaligned<T>`) empty, and dropping the guard moves the
possibly changed value back.

This project models those three parts and proves what they promise:

- `common.dfy` (`Common`): Rust's `Option`, `Result` and `Ordering`. It also
  defines `Exit`, which says how a callback that received `&mut T` ended
  (returned or panicked) and what it left in its argument. `Outcome` is what the
  caller then sees.
- `storage.dfy` (`Storage`) models `src/unaligned.rs`. `Unaligned<T>` is the
  value as Rust moves it. `UnalignedPlace<T>` is a memory location with a fixed
  address holding one. The `&self` and `&mut self` methods act on the place and
  change its `shim` field in place. The array reinterpretation is a pure map over
  a sequence.
- `slot.dfy` (`OptSlot`) models `src/cell/opt.rs`: the two-variant slot, its
  conversions and the payload offset past the one-byte tag.
- `cell.dfy` (`Cells`) models `src/cell.rs`. The cell is a class with a `slot`
  field. The guard is a class with an explicit `Drop` method. `TryBorrowStep` and
  `Run` are pure step functions of the borrow state machine, with an invariant
  proved over every sequence of borrows and releases. On the classes, a ghost
  `borrowed` flag records that a live guard exists. Every method keeps the
  invariant `Valid()`: the cell is borrowed exactly while its slot is empty.
  A guard can only be built on a cell that is not borrowed.
- `examples_client.dfy` (`DocExamples`) holds clients that check the crate's
  documented examples (42 → 70, with_mut, replace_with, get_mut) against the
  contracts alone. It also checks the borrow scenario: a second borrow is refused,
  two cells swap, and a self-swap conflicts. Finally it checks that a cell
  compared with itself keeps `T`'s non-reflexive equality.

Panics are preconditions: `borrow` on a borrowed cell, `into_inner` and
`get_mut` on a cell whose borrow leaked, and swapping a cell with itself. The
one recoverable failure, `try_borrow`'s `BorrowError`, is an `Err` result.
`T::default()`, `T::clone`, `T::max`/`min`/`clamp` and the comparison
operators of `T` are passed in as functions. Nothing constrains them, so a
comparison need not be reflexive.

The code and its own documentation disagree in one place, and the model follows
the code:

- The doc comment of `replace_with` says the previous value is returned
  (src/cell.rs:163-164). The code returns the value that `f` left in its `&mut`
  argument (src/cell.rs:181-183), which differs from the previous value when `f`
  mutates that argument. When `f` does not mutate it, the two agree.

## Model

| member | source | states |
|---|---|---|
| `Storage.New` | src/unaligned.rs:13-16 | wrapping succeeds for every value, and the shim unwraps to exactly that value |
| `Storage.IntoInner` | src/unaligned.rs:18-21 | the shim is exactly the wrapping of the returned value, so unwrapping loses nothing |
| `Storage.IntoInnerOfNew` | src/unaligned.rs:14-21 | unwrapping a newly wrapped value gives that value back |
| `Storage.NewOfIntoInner` | src/unaligned.rs:14-21 | wrapping an unwrapped value rebuilds the same shim |
| `Storage.IntoArrayOfUnaligned` | src/unaligned.rs:186-194 | the conversion keeps the length N, and element i wraps element i of the array |
| `Storage.FromArrayOfUnaligned` | src/unaligned.rs:196-206 | the crate has no conversion back; this is the element view read back as the one array it views (the same bytes), keeping the length, with array element i the content of element i |
| `Storage.ArrayRoundTrip` | src/unaligned.rs:186-194 | array to elements and back yields the original array, for every N and every element |
| `Storage.ArrayRoundTripBack` | src/unaligned.rs:196-200 | every sequence of unaligned elements is the element view of exactly one array |
| `Storage.ElementWriteThroughView` | src/unaligned.rs:202-206 | writing element i through the mutable element view changes exactly element i of the array |
| `Storage.UnalignedPlace.constructor` | src/unaligned.rs:7-10 | a location at a fixed address holding the given shim; nothing is required of the address |
| `Storage.UnalignedPlace.GetAligned` | src/unaligned.rs:85-93 | gives `Some` of the stored value exactly when address mod alignment is 0. Otherwise it gives `None`. The answer depends only on the fixed address |
| `Storage.UnalignedPlace.GetAlignedMut` | src/unaligned.rs:95-105 | the reference is available exactly when address mod alignment is 0. Only then does a write through it change the stored value |
| `Storage.UnalignedPlace.Get` | src/unaligned.rs:179-184 | returns the stored value and changes nothing |
| `Storage.UnalignedPlace.Set` | src/unaligned.rs:135-138 | the stored value becomes the given value |
| `Storage.UnalignedPlace.WithMut` | src/unaligned.rs:156-169 | the stored value afterwards is what `f` left in its argument, whether `f` returned or panicked. The result is `f`'s result exactly when `f` returned |
| `Storage.UnalignedPlace.Swap` | src/unaligned.rs:125-128 | the stored value and the caller's `other` are exchanged |
| `Storage.UnalignedPlace.Replace` | src/unaligned.rs:130-133 | stores the new value and returns the former one |
| `Storage.UnalignedPlace.Take` | src/unaligned.rs:172-177 | stores `T::default()` and returns the former value |
| `OptSlot.Default` | src/cell/opt.rs:6-9 | the default slot is empty |
| `OptSlot.DefaultIsEmpty` | src/cell/opt.rs:7-9 | the default slot converts to `None` |
| `OptSlot.SomeOf` | src/cell/opt.rs:20-22 | `some(v)` is an occupied slot whose payload unwraps to v |
| `OptSlot.IntoOption` | src/cell/opt.rs:24-29 | `Some(u)` becomes `Some(u)` and `None` becomes `None` |
| `OptSlot.IntoOptionRoundTrip` | src/cell/opt.rs:24-29 | the conversion to `Option` is one-to-one |
| `OptSlot.IntoOptionOnto` | src/cell/opt.rs:24-29 | every `Option` is the conversion of a slot |
| `OptSlot.AsOptionMut` | src/cell/opt.rs:31-36 | the reference exists exactly when the slot is occupied. A write through it keeps the tag and changes only the payload |
| `OptSlot.AsOptionMutIdentity` | src/cell/opt.rs:31-36 | writing back what was read through the reference leaves the slot unchanged |
| `OptSlot.ProjectPtr` | src/cell/opt.rs:38-44 | the payload pointer is the slot pointer plus the one-byte tag |
| `OptSlot.SlotSize` | src/cell/opt.rs:5-11 | a slot occupies the one-byte `repr(u8)` tag plus the payload with no padding, so it is larger than its payload |
| `OptSlot.ProjectPtrLayout` | src/cell/opt.rs:38-44 | the payload range `[p+1, p+1+n)` lies inside the slot range `[p, p+SlotSize(n))`, excludes the tag byte at p and ends exactly at the slot's end. Distinct slots project to distinct payloads |
| `OptSlot.Clone` | src/cell/opt.rs:13-17 | cloning a slot of a `Copy` payload gives the same tag and the same payload |
| `Cells.TryBorrowStep` | src/cell.rs:126-132 | the slot is always left empty. The result is `Ok(v)` exactly when the slot held v, and `BorrowError` otherwise |
| `Cells.Run` | src/cell.rs:24-132 | the cell after a sequence of events, each a `try_borrow` step (src/cell.rs:126-132, a guard added when it succeeds) or the `RefMut::drop` write-back of a guard's value (src/cell.rs:24-31, a guard removed). The final slot is the starting one, empty, or a value some dropped guard wrote back |
| `Cells.RunKeepsExclusive` | src/cell.rs:114-132 | over any sequence of borrows and guard drops, at most one guard is outstanding, and the slot is empty exactly while it is |
| `Cells.BorrowWhileBorrowed` | src/cell.rs:24-132 | while a guard is outstanding a borrow fails, leaves the slot empty and adds no guard. Dropping the guard after it left v writes v back and releases the lock, and the next borrow then yields v |
| `Cells.LeakedBorrowStaysEmpty` | src/cell.rs:84-91 | after a guard is leaked the slot stays empty through any later borrow attempts, so `into_inner` cannot yield a value |
| `Cells.EmptyStaysEmpty` | src/cell.rs:126-132 | borrow attempts on an empty slot never refill it and never hand out a guard |
| `Cells.RefMut.constructor` | src/cell.rs:126-132 | a live guard holding the moved-out value, tied to its cell, which `try_borrow` has just emptied. The cell must not already be borrowed, and it is marked borrowed, so no second live guard on a cell can be built |
| `Cells.RefMut.Drop` | src/cell.rs:24-31 | the empty, borrowed cell of a live guard becomes occupied by the guard's possibly mutated value and is no longer borrowed, and the guard is spent |
| `Cells.UnalignedCell.constructor` | src/cell.rs:79-82 | a new cell is occupied by the given value |
| `Cells.UnalignedCell.IntoInner` | src/cell.rs:84-91 | on an occupied cell, returns exactly the held value. It may not be called on a leaked (empty) cell |
| `Cells.UnalignedCell.TryBorrow` | src/cell.rs:114-132 | on an occupied cell: a fresh live guard on this cell holding v, with the cell left empty and marked borrowed. On an empty cell: `BorrowError`, with the cell still empty |
| `Cells.UnalignedCell.Borrow` | src/cell.rs:106-112 | only an occupied cell may be borrowed. It yields a guard holding v and leaves the cell empty |
| `Cells.UnalignedCell.GetMut` | src/cell.rs:134-145 | requires an occupied cell. The reference points at the held shim, and a write through it replaces only the payload |
| `Cells.UnalignedCell.Swap` | src/cell.rs:147-153 | two distinct occupied cells exchange their contents. A self-swap is excluded |
| `Cells.UnalignedCell.Replace` | src/cell.rs:155-161 | returns the old value and leaves the cell occupied by the new one |
| `Cells.UnalignedCell.ReplaceWith` | src/cell.rs:163-184 | returns what `f` left in its argument and stores `f`'s returned value. If `f` panics, what `f` left in its argument is stored |
| `Cells.UnalignedCell.Take` | src/cell.rs:187-192 | returns the old value and leaves the cell occupied by `T::default()` |
| `Cells.UnalignedCell.Clone` | src/cell.rs:202-206 | the new cell holds `T::clone` of the value, and the original is unchanged |
| `Cells.UnalignedCell.Compare` | src/cell.rs:228-299 | the result is `T`'s operation on the two contents. For the same cell it is exactly `op(v, v)`, even when `op` is non-reflexive. Both cells end as they began |
| `Cells.UnalignedCell.Eq` | src/cell.rs:230-238 | `T`'s `==` on the contents (`v == v` for the same cell), with both cells unchanged |
| `Cells.UnalignedCell.PartialCmp` | src/cell.rs:245-252 | `T`'s `partial_cmp` on the contents, with both cells unchanged |
| `Cells.UnalignedCell.Lt` | src/cell.rs:254-261 | `T`'s `<` on the contents, with both cells unchanged |
| `Cells.UnalignedCell.Le` | src/cell.rs:263-270 | `T`'s `<=` on the contents, with both cells unchanged |
| `Cells.UnalignedCell.Gt` | src/cell.rs:272-279 | `T`'s `>` on the contents, with both cells unchanged |
| `Cells.UnalignedCell.Ge` | src/cell.rs:281-288 | `T`'s `>=` on the contents, with both cells unchanged |
| `Cells.UnalignedCell.Cmp` | src/cell.rs:292-299 | `T`'s `cmp` on the contents, with both cells unchanged |
| `Cells.UnalignedCell.Max` | src/cell.rs:301-303 | a new cell holding `T::max` of the two contents |
| `Cells.UnalignedCell.Min` | src/cell.rs:305-307 | a new cell holding `T::min` of the two contents |
| `Cells.UnalignedCell.Clamp` | src/cell.rs:309-315 | a new cell holding `T::clamp` of the three contents |

## Left out

- Raw pointer accessors and unsafe constructors are not modelled: `as_ptr`, `as_mut_ptr`, `from_ptr`, `from_mut_ptr`, `get_aligned_unchecked`, `get_aligned_unchecked_mut` and `UnalignedCell::as_ptr`. Their contracts are about memory validity and undefined behaviour. Only the address arithmetic (`GetAligned`, `ProjectPtr`) is modelled.
- The `repr(C, packed)` size and alignment of `Unaligned<T>` and the `transmute` layout equivalence are not modelled. The array views are the element-wise map, and `as_array_of_unaligned` and `as_mut_array_of_unaligned` are that same map seen by reference.
- The `repr(u8)` slot is modelled only as a one-byte tag followed by the payload (`TagSize`, `SlotSize`). The model takes this layout as given. It does not derive it from Rust's layout rules.
- Addresses are unbounded naturals. `usize` overflow of `p + 1` in `project_ptr` is not modelled.
- `Storage.UnalignedPlace.Swap`: the caller's `&mut T` is passed in by value, and its new content is returned.
- `Cells.UnalignedCell.GetMut`: the returned `&mut Unaligned<T>` is modelled as its referent plus one caller-supplied write through it.
- `Storage.UnalignedPlace.GetAlignedMut`: the same treatment applies to the returned `&mut T`.
- Callbacks and `T`'s trait methods are total functions of their arguments. A callback that reaches the same cell again is not modelled: inside `replace_with`, it would find the cell borrowed.
- Unwinding, `scopeguard` and `ManuallyDrop` are not modelled. A panicking callback is `Exit.Panic`, and the guaranteed write-back is part of each contract.
- Dropping replaced values (teardown through an aligned temporary) is not modelled, because the model has no destructors.
- `Cells.UnalignedCell.IntoInner`, `Max`, `Min` and `Clamp` consume their receivers in Rust. Here they only read them.
- `Debug`, `Display` and `Hash` are not modelled, because they are formatter and hasher plumbing.
- The `From` impls of `Unaligned` and `UnalignedCell` and `Default` for `UnalignedCell` are not modelled separately. Each is `new` applied to its argument or to `T::default()`.
- The `Clone`/`Copy` impls of `Unaligned` are not modelled separately: copying a datatype value is already a bitwise copy.
- The `std` feature (`BorrowError: Error`) and the module glue in `src/lib.rs` are not modelled.
- Real floating-point NaN is not modelled. Non-reflexive comparison is represented by arbitrary comparison functions.
