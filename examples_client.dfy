/** Clients that use only the contracts of `Storage` and `Cells`: the usage
    examples in the crate's documentation and the borrow scenario the cell is
    designed for, checked against the model. */
module DocExamples {
  import opened Common
  import Storage
  import OptSlot
  import Cells

  /** Cell holding 42: borrow, read 42, write 70, release; borrow again and see
      70; a second borrow while the first is outstanding fails; release; two
      cells holding 1 and 2 swap to 2 and 1; swapping a cell with itself would
      need a second borrow of a borrowed cell, which fails. */
  method BorrowScenario()
  {
    var cell := new Cells.UnalignedCell(42);
    var guard := cell.Borrow();
    assert guard.data == 42;
    guard.data := 70;
    guard.Drop();

    var first := cell.TryBorrow();
    assert first.Ok? && first.value.data == 70;
    var second := cell.TryBorrow();
    assert second.Err?;
    first.value.Drop();
    assert cell.slot == OptSlot.SomeOf(70);

    var one := new Cells.UnalignedCell(1);
    var two := new Cells.UnalignedCell(2);
    one.Swap(two);
    var a := one.IntoInner();
    var b := two.IntoInner();
    assert a == 2 && b == 1;

    var held := one.Borrow();
    var again := one.TryBorrow();
    assert again.Err?;
    held.Drop();
    assert one.slot == OptSlot.SomeOf(2);
  }

  /** `with_mut(|v| *v + 28)` on 42 returns 70 and leaves 42 stored; a callback
      that writes 43 and then panics still has its write committed; a location
      at address 7 is never aligned to 4, whatever it holds. */
  method WithMutExamples()
  {
    var place := new Storage.UnalignedPlace(7, Storage.New(42));
    var sum := place.WithMut((v: int) => Return(v, v + 28));
    assert sum == Completed(70) && place.shim == Storage.New(42);

    var failed: Outcome<bool> := place.WithMut((v: int) => Panic(v + 1));
    assert failed.Unwound? && place.shim == Storage.New(43);

    var old42 := place.Replace(5);
    var got := place.Get();
    assert old42 == 43 && got == 5;

    // Alignment availability belongs to the address: a write does not change it.
    var before := place.GetAligned(4).Some?;
    place.Set(9);
    assert place.GetAligned(4).Some? == before && !before;
  }

  /** `replace_with(|val| *val + 28)` on a cell holding 42 returns 42 and
      leaves 70; with a callback that mutates its argument the result is what
      the callback left there; `get_mut().get()` on a cell holding 42 reads 42. */
  method ReplaceWithExample()
  {
    var cell := new Cells.UnalignedCell(42);
    var original := cell.ReplaceWith((v: int) => Return(v, v + 28));
    assert original == Completed(42) && cell.slot == OptSlot.SomeOf(70);

    // A callback that changes its argument: what it left (43) is returned, not
    // the previous value 42, and its returned value 0 is stored.
    var mutated := new Cells.UnalignedCell(42);
    var left := mutated.ReplaceWith((v: int) => Return(v + 1, 0));
    assert left == Completed(43) && mutated.slot == OptSlot.SomeOf(0);

    var other := new Cells.UnalignedCell(42);
    var u := other.GetMut((x: Storage.Unaligned<int>) => x);
    assert Storage.IntoInner(u) == 42;
  }

  /** A cell compared with itself borrows once and reports exactly what `T`
      reports for its value against itself: with an equality under which 0 is
      not equal to itself (as a NaN is not), the cell is not equal to itself,
      and it is still occupied afterwards. */
  method NonReflexiveSelfComparison()
  {
    var eq := (x: int, y: int) => x == y && x != 0;
    var nan := new Cells.UnalignedCell(0);
    var same := nan.Eq(nan, eq);
    assert !same && nan.slot == OptSlot.SomeOf(0);

    var one := new Cells.UnalignedCell(1);
    var selfEqual := one.Eq(one, eq);
    assert selfEqual;
  }
}
