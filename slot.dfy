/** The occupancy slot of `src/cell/opt.rs`: an option whose one-byte tag comes
    first, so that the payload sits at a fixed offset and can be located by
    pointer arithmetic alone. */
module OptSlot {
  import Common
  import opened Storage

  /** `OptUnaligned<T>`: empty, or occupied by an unaligned payload. */
  datatype OptUnaligned<T> = None | Some(payload: Unaligned<T>)

  /** Size in bytes of the `repr(u8)` tag. */
  const TagSize: nat := 1

  /** The derived `Default`: the empty slot. */
  function Default<T>(): (s: OptUnaligned<T>)
    ensures !s.Some?
  {
    None
  }

  /** `OptUnaligned::some`: an occupied slot whose payload unwraps to `value`. */
  function SomeOf<T>(value: T): (s: OptUnaligned<T>)
    ensures s.Some? && IntoInner(s.payload) == value
  {
    Some(New(value))
  }

  /** `OptUnaligned::into_option`: the same occupancy and payload as a plain
      `Option`. */
  function IntoOption<T>(s: OptUnaligned<T>): (o: Common.Option<Unaligned<T>>)
    ensures o.Some? <==> s.Some?
    ensures o.Some? ==> o.value == s.payload
  {
    match s
    case Some(u) => Common.Some(u)
    case None => Common.None
  }

  /** The inverse of `IntoOption`, used only to state that the conversion is
      one-to-one. */
  ghost function FromOption<T>(o: Common.Option<Unaligned<T>>): (s: OptUnaligned<T>)
  {
    match o
    case Some(u) => Some(u)
    case None => None
  }

  /** `into_option` loses nothing: converting back gives the original slot. */
  lemma IntoOptionRoundTrip<T>(s: OptUnaligned<T>)
    ensures FromOption(IntoOption(s)) == s
  {
  }

  /** ... and every `Option` is the image of exactly one slot. */
  lemma IntoOptionOnto<T>(o: Common.Option<Unaligned<T>>)
    ensures IntoOption(FromOption(o)) == o
  {
  }

  /** The default slot converts to no value at all. */
  lemma DefaultIsEmpty<T>()
    ensures IntoOption(Default<T>()) == Common.None
  {
  }

  /** `OptUnaligned::as_option_mut`, followed by the caller's write `update`
      through the reference when there is one: the slot after the write. The
      tag never changes and only the payload is touched. */
  function AsOptionMut<T>(s: OptUnaligned<T>, update: Unaligned<T> -> Unaligned<T>): (r: OptUnaligned<T>)
    ensures r.Some? <==> s.Some?
    ensures r.Some? ==> r.payload == update(s.payload)
  {
    match s
    case Some(u) => Some(update(u))
    case None => None
  }

  /** A write through `as_option_mut` that stores back what it read changes
      nothing. */
  lemma {:induction false} AsOptionMutIdentity<T>(s: OptUnaligned<T>)
    ensures AsOptionMut(s, (u: Unaligned<T>) => u) == s
  {
    match s
    case Some(u) =>
    case None =>
  }

  /** `OptUnaligned::project_ptr`: the payload's address, computed from the
      slot's address `p` by stepping over the tag byte. */
  function ProjectPtr(p: nat): (q: nat)
    ensures q - p == TagSize
  {
    p + TagSize
  }

  /** Bytes occupied by a slot whose payload has `n` bytes: the `repr(u8)` tag,
      then the payload with no padding, since `Unaligned<T>` has alignment one. */
  function SlotSize(n: nat): (size: nat)
    ensures size > n
  {
    TagSize + n
  }

  /** The projected payload range `[ProjectPtr(p), ProjectPtr(p) + n)` lies
      inside the slot's range `[p, p + SlotSize(n))`: every payload byte `a` is
      past the tag byte at `p` and before the slot's end, which the payload
      reaches exactly. Slots at different addresses project to different
      payloads. */
  lemma ProjectPtrLayout(p: nat, p': nat, n: nat, a: nat)
    ensures p < ProjectPtr(p) && ProjectPtr(p) + n == p + SlotSize(n)
    ensures ProjectPtr(p) <= a < ProjectPtr(p) + n ==> p < a < p + SlotSize(n)
    ensures p != p' ==> ProjectPtr(p) != ProjectPtr(p')
  {
  }

  /** `Clone` for a `Copy` payload is a bitwise copy: the clone is the same slot. */
  function Clone<T>(s: OptUnaligned<T>): (c: OptUnaligned<T>)
    ensures c.Some? <==> s.Some?
    ensures c.Some? ==> IntoInner(c.payload) == IntoInner(s.payload)
  {
    s
  }
}
