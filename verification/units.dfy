/** The 16-bit unit format shared by the build-time encoder and the run-time decoder,
    and the kind marker that travels with every table. */
module Units {

  /** The type the decrypted bytes are reinterpreted as: Rust's `str`, `[u8]` or `CStr`
      (the `PhantomData<T>` marker). */
  datatype Kind = Str | ByteSlice | CStr

  /** An obfuscated table: the kind marker and the masked 16-bit units. The macro expands
      to exactly this pair, and `Obfuscated::new_unchecked` reinterprets it unchanged. */
  datatype Table = Table(marker: Kind, data: seq<bv16>)

  /** `u16::from_le_bytes([lo, hi])`: `lo` is the low byte, `hi` the high byte. */
  function FromLeBytes(lo: bv8, hi: bv8): (u: bv16)
    ensures u == lo as bv16 + 256 * hi as bv16
  {
    (lo as bv16) | ((hi as bv16) << 8)
  }

  /** `u16::to_le_bytes`: the low byte first, then the high byte. */
  function ToLeBytes(u: bv16): (p: (bv8, bv8))
    ensures u == p.0 as bv16 + 256 * p.1 as bv16
  {
    ((u & 0xFF) as bv8, (u >> 8) as bv8)
  }

  /** `u` is the unit that hides `b` under `pad`: the masked byte `b ^ pad` in the low half
      and the pad in the high half. */
  predicate Masks(u: bv16, b: bv8, pad: bv8) {
    u == (b ^ pad) as bv16 + 256 * pad as bv16
  }

  /** Splitting a packed unit gives back the two bytes it was packed from. */
  lemma ToLeBytesOfFromLeBytes(lo: bv8, hi: bv8)
    ensures ToLeBytes(FromLeBytes(lo, hi)) == (lo, hi)
  {
  }

  /** Packing the two bytes of a unit gives back the unit. */
  lemma FromLeBytesOfToLeBytes(u: bv16)
    ensures FromLeBytes(ToLeBytes(u).0, ToLeBytes(u).1) == u
  {
  }
}
