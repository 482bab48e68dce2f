/** The storage shim of `src/unaligned.rs`: a value kept at byte alignment one,
    reachable only by copying it out to an aligned temporary and back.

    `Unaligned<T>` is the value itself, as Rust moves it around. The operations
    that take `&self` or `&mut self` act on the memory location that holds such a
    value; that location is `UnalignedPlace<T>`, whose address is fixed. */
module Storage {
  import opened Common

  /** An unaligned value of type `T`. It carries nothing besides the value: the
      packed representation only lowers its alignment requirement to one. */
  datatype Unaligned<T> = Unaligned(inner: T)

  /** `Unaligned::new`: wrapping never fails and asks nothing of the address. */
  function New<T>(value: T): (u: Unaligned<T>)
    ensures IntoInner(u) == value
  {
    Unaligned(value)
  }

  /** `Unaligned::into_inner`: consume the shim, giving back the aligned value. */
  function IntoInner<T>(u: Unaligned<T>): (v: T)
    ensures u == Unaligned(v)
  {
    u.inner
  }

  /** Unwrapping a freshly wrapped value gives that value back. */
  lemma IntoInnerOfNew<T>(value: T)
    ensures IntoInner(New(value)) == value
  {
  }

  /** Wrapping what was unwrapped rebuilds the same shim: nothing is lost. */
  lemma NewOfIntoInner<T>(u: Unaligned<T>)
    ensures New(IntoInner(u)) == u
  {
  }

  /** `Unaligned::into_array_of_unaligned`: an unaligned `[T; N]` becomes `N`
      individually unaligned elements, element `i` wrapping element `i`. */
  function IntoArrayOfUnaligned<T>(u: Unaligned<seq<T>>): (r: seq<Unaligned<T>>)
    ensures |r| == |u.inner|
    ensures forall i :: 0 <= i < |r| ==> IntoInner(r[i]) == u.inner[i]
  {
    seq(|u.inner|, i requires 0 <= i < |u.inner| => New(u.inner[i]))
  }

  /** The opposite reading of the same bytes: `N` unaligned elements seen as one
      unaligned array. The crate only transmutes the other way; this is the
      partner that states the conversion loses nothing. */
  function FromArrayOfUnaligned<T>(a: seq<Unaligned<T>>): (r: Unaligned<seq<T>>)
    ensures |r.inner| == |a|
    ensures forall i :: 0 <= i < |a| ==> r.inner[i] == IntoInner(a[i])
  {
    New(seq(|a|, i requires 0 <= i < |a| => IntoInner(a[i])))
  }

  /** Converting an unaligned array to unaligned elements and back yields the
      original, for every length and every element. */
  lemma {:induction false} ArrayRoundTrip<T>(u: Unaligned<seq<T>>)
    ensures FromArrayOfUnaligned(IntoArrayOfUnaligned(u)) == u
  {
    var back := FromArrayOfUnaligned(IntoArrayOfUnaligned(u));
    assert back.inner == u.inner;
  }

  /** The conversion is onto: every sequence of unaligned elements is the
      element view of exactly one unaligned array. */
  lemma {:induction false} ArrayRoundTripBack<T>(a: seq<Unaligned<T>>)
    ensures IntoArrayOfUnaligned(FromArrayOfUnaligned(a)) == a
  {
    var back := IntoArrayOfUnaligned(FromArrayOfUnaligned(a));
    forall i | 0 <= i < |a|
      ensures back[i] == a[i]
    {
      assert IntoInner(back[i]) == IntoInner(a[i]);
    }
  }

  /** `Unaligned::as_mut_array_of_unaligned` hands out the element view of the
      same bytes: overwriting element `i` through that view is overwriting
      element `i` of the array and nothing else. */
  lemma {:induction false} ElementWriteThroughView<T>(u: Unaligned<seq<T>>, i: nat, x: Unaligned<T>)
    requires i < |u.inner|
    ensures FromArrayOfUnaligned(IntoArrayOfUnaligned(u)[i := x]) == New(u.inner[i := IntoInner(x)])
  {
    var lhs := FromArrayOfUnaligned(IntoArrayOfUnaligned(u)[i := x]);
    assert lhs.inner == u.inner[i := IntoInner(x)];
  }

  /** A memory location of address `addr` holding an `Unaligned<T>`. The
      `&self` and `&mut self` methods of `Unaligned` act here. */
  class UnalignedPlace<T> {
    const addr: nat
    var shim: Unaligned<T>

    /** A location at `addr` into which `u` has been moved. */
    constructor (addr: nat, u: Unaligned<T>)
      ensures this.addr == addr && shim == u
    {
      this.addr := addr;
      shim := u;
    }

    /** Whether the stored value happens to sit at an address that is a
        multiple of `align` (`mem::align_of::<T>()`, never zero). It depends on
        the address only, so no write to the location changes it. */
    predicate IsAligned(align: nat)
      requires align > 0
    {
      addr % align == 0
    }

    /** `Unaligned::get_aligned`: a direct reference to the stored value exactly
        when the address modulo the alignment is zero, and nothing otherwise. */
    function GetAligned(align: nat): (r: Option<T>)
      reads this
      requires align > 0
      ensures r.Some? <==> addr % align == 0
      ensures r.Some? ==> r.value == IntoInner(shim)
    {
      if IsAligned(align) then Some(shim.inner) else None
    }

    /** `Unaligned::get_aligned_mut`, followed by the caller's write `update`
        through the reference when there is one. */
    method GetAlignedMut(align: nat, update: T -> T) returns (aligned: bool)
      requires align > 0
      modifies this
      ensures aligned <==> addr % align == 0
      ensures shim == if aligned then New(update(old(shim).inner)) else old(shim)
    {
      aligned := IsAligned(align);
      if aligned {
        shim := New(update(shim.inner));
      }
    }

    /** `Unaligned::get` for `Copy` types: a copy of the stored value. */
    method Get() returns (value: T)
      ensures New(value) == shim
    {
      value := shim.inner;
    }

    /** `Unaligned::set`: the old value is dropped and `value` stored. */
    method Set(value: T)
      modifies this
      ensures IntoInner(shim) == value
    {
      shim := New(value);
    }

    /** `Unaligned::with_mut`: move the value into an aligned temporary, run
        `f` on it, and write the temporary back. The write-back is done by a
        scope guard, so it happens whether `f` returns or panics. */
    method WithMut<R>(f: T -> Exit<T, R>) returns (out: Outcome<R>)
      modifies this
      ensures IntoInner(shim) == f(IntoInner(old(shim))).arg
      ensures out.Completed? <==> f(IntoInner(old(shim))).Return?
      ensures out.Completed? ==> out.value == f(IntoInner(old(shim))).result
    {
      var temp := shim.inner;
      var exit := f(temp);
      shim := New(exit.arg);
      out := if exit.Return? then Completed(exit.result) else Unwound;
    }

    /** `Unaligned::swap`: exchange the stored value with the caller's `other`
        (passed by `&mut`); `otherAfter` is what `other` holds afterwards. */
    method Swap(other: T) returns (otherAfter: T)
      modifies this
      ensures IntoInner(shim) == other && otherAfter == IntoInner(old(shim))
    {
      var out := WithMut((v: T) => Return(other, v));
      otherAfter := out.value;
    }

    /** `Unaligned::replace`: store `value` and hand back the former value. */
    method Replace(value: T) returns (previous: T)
      modifies this
      ensures IntoInner(shim) == value && previous == IntoInner(old(shim))
    {
      var out := WithMut((v: T) => Return(value, v));
      previous := out.value;
    }

    /** `Unaligned::take`: `replace` with `T::default()`, given as `defaultValue`. */
    method Take(defaultValue: T) returns (previous: T)
      modifies this
      ensures IntoInner(shim) == defaultValue && previous == IntoInner(old(shim))
    {
      previous := Replace(defaultValue);
    }
  }
}
