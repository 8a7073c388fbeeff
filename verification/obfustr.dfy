/** The run-time half (`obfustr`): decryption of a table into an owned buffer, the view of
    that buffer as the marked type, the zeroing on drop, and the `obfuscate!` macro that
    chains them. */
module Obfustr {
  import opened Results
  import opened Units
  import opened Text
  import Macros

  /** `Decrypted<T>`: the owned buffer of decrypted bytes and its marker. */
  datatype Decrypted = Decrypted(marker: Kind, data: seq<bv8>)

  /** `Data::from_raw`'s result: a view of the bytes as `str`, `[u8]` or `CStr` (for a C
      string the bytes include the terminator). */
  datatype View =
    | StrView(text: Utf8Bytes)
    | ByteSliceView(bytes: seq<bv8>)
    | CStrView(withNul: CStrBytes)
  {
    /** The type the view has. */
    function Marker(): Kind {
      match this
      case StrView(_) => Str
      case ByteSliceView(_) => ByteSlice
      case CStrView(_) => CStr
    }

    /** The bytes the view covers. */
    function Bytes(): seq<bv8> {
      match this
      case StrView(t) => t
      case ByteSliceView(b) => b
      case CStrView(c) => c
    }
  }

  /** The safety condition of `Obfuscated::new_unchecked`: the table decrypts to bytes
      valid for its marker. */
  ghost predicate Sound(t: Table) {
    ValidFor(t.marker, Unmask(t.data))
  }

  /** The bytes a table decrypts to: each unit's low byte XOR its high byte. */
  function Unmask(units: seq<bv16>): (bytes: seq<bv8>)
    ensures |bytes| == |units|
    ensures forall i :: 0 <= i < |units| ==> Masks(units[i], bytes[i], (units[i] >> 8) as bv8)
    decreases |units|
  {
    if |units| == 0 then []
    else
      var (a, b) := ToLeBytes(units[0]);
      [a ^ b] + Unmask(units[1..])
  }

  /** `Obfuscated::decrypt`: reads every unit once and writes `a ^ b` into a fresh buffer of
      the same length; the marker is carried over. */
  method Decrypt(o: Table) returns (d: Decrypted)
    ensures d.marker == o.marker
    ensures |d.data| == |o.data|
    ensures d.data == Unmask(o.data)
  {
    var data := new bv8[|o.data|];
    for i := 0 to |o.data|
      invariant forall j :: 0 <= j < i ==> data[j] == Unmask(o.data)[j]
    {
      var (a, b) := ToLeBytes(o.data[i]);
      data[i] := a ^ b;
    }
    d := Decrypted(o.marker, data[..]);
  }

  /** `Drop for Decrypted`: overwrites every byte with zero and keeps the length. */
  method Drop(d: Decrypted) returns (after: Decrypted)
    ensures after.marker == d.marker
    ensures |after.data| == |d.data|
    ensures forall i :: 0 <= i < |after.data| ==> after.data[i] == 0
  {
    var data := d.data;
    for i := 0 to |data|
      invariant |data| == |d.data|
      invariant forall j :: 0 <= j < i ==> data[j] == 0
    {
      data := data[i := 0];
    }
    after := Decrypted(d.marker, data);
  }

  /** `Data::from_raw`: the bytes, unchanged, seen as type `k`; the caller vouches that
      they are valid for `k`. */
  function FromRaw(k: Kind, bytes: seq<bv8>): (v: View)
    requires ValidFor(k, bytes)
    ensures v.Marker() == k
    ensures v.Bytes() == bytes
  {
    match k
    case Str => StrView(bytes)
    case ByteSlice => ByteSliceView(bytes)
    case CStr => CStrView(bytes)
  }

  /** A view is fixed by its type and its bytes, so the contract of `FromRaw` determines its
      result. */
  lemma ViewDetermined(v: View, w: View)
    requires v.Marker() == w.Marker() && v.Bytes() == w.Bytes()
    ensures v == w
  {
  }

  /** `Decrypted::as_inner`: the buffer viewed as its marked type. */
  function AsInner(d: Decrypted): (v: View)
    requires ValidFor(d.marker, d.data)
    ensures v.Marker() == d.marker
    ensures v.Bytes() == d.data
  {
    FromRaw(d.marker, d.data)
  }

  /** `Deref::deref`. */
  function Deref(d: Decrypted): (v: View)
    requires ValidFor(d.marker, d.data)
    ensures v.Marker() == d.marker
    ensures v.Bytes() == d.data
  {
    AsInner(d)
  }

  /** `AsRef::as_ref`. */
  function AsRef(d: Decrypted): (v: View)
    requires ValidFor(d.marker, d.data)
    ensures v.Marker() == d.marker
    ensures v.Bytes() == d.data
  {
    AsInner(d)
  }

  /** `Borrow::borrow`. */
  function Borrow(d: Decrypted): (v: View)
    requires ValidFor(d.marker, d.data)
    ensures v.Marker() == d.marker
    ensures v.Bytes() == d.data
  {
    AsInner(d)
  }

  /** The four accessors give the same view of the same buffer. */
  lemma AccessorsAgree(d: Decrypted)
    requires ValidFor(d.marker, d.data)
    ensures Deref(d) == AsInner(d) && AsRef(d) == AsInner(d) && Borrow(d) == AsInner(d)
  {
  }

  /** Unmasking inverts masking, whatever the pads. */
  lemma {:induction false} RoundTrip(bytes: seq<bv8>, pads: seq<bv8>)
    requires |pads| == |bytes|
    ensures Unmask(Macros.Mask(bytes, pads)) == bytes
  {
    DecodesEncoded(Macros.Mask(bytes, pads), bytes, pads);
  }

  /** Any unit sequence that masks `bytes` under some pads unmasks to `bytes`. */
  lemma DecodesEncoded(units: seq<bv16>, bytes: seq<bv8>, pads: seq<bv8>)
    requires |units| == |bytes| == |pads|
    requires forall i :: 0 <= i < |units| ==> Masks(units[i], bytes[i], pads[i])
    ensures Unmask(units) == bytes
  {
    var plain := Unmask(units);
    forall i | 0 <= i < |units|
      ensures plain[i] == bytes[i]
    {
      UnitDetermines(units[i], bytes[i], pads[i], plain[i], (units[i] >> 8) as bv8);
    }
  }

  /** A unit fixes both the byte it hides and the pad. */
  lemma UnitDetermines(u: bv16, b: bv8, p: bv8, b': bv8, p': bv8)
    requires Masks(u, b, p) && Masks(u, b', p')
    ensures b == b' && p == p'
  {
  }

  /** Whatever the pads, the table the macro expands to decrypts to the literal's payload,
      and that payload is valid for the marker: the safety condition of
      `Obfuscated::new_unchecked` always holds for a macro expansion. */
  lemma ObfuscateSound(tokens: seq<Macros.TokenTree>, rng: nat -> bv8)
    requires Macros.Obfuscate(tokens, rng).Ok?
    ensures var t := Macros.Obfuscate(tokens, rng).value;
            var lit := Macros.Core(tokens[0]).lit;
            Unmask(t.data) == Macros.Payload(lit) && Sound(t)
  {
    var t := Macros.Obfuscate(tokens, rng).value;
    var lit := Macros.Core(tokens[0]).lit;
    var payload := Macros.Payload(lit);
    var pads := Macros.Draws(rng, |payload|);
    DecodesEncoded(t.data, payload, pads);
    if lit.LitCStr? {
      WithNul(lit.cbytes);
    }
  }

  /** The `obfuscate!` macro at a use site: expand the tokens (or fail to build), decrypt
      the table, hand the view to the caller, and drop the temporary buffer at the end of
      the statement. Returns the view and the buffer's bytes after the drop. */
  method ObfuscateMacro(tokens: seq<Macros.TokenTree>, rng: nat -> bv8)
    returns (r: Result<View, Macros.Error>, wiped: seq<bv8>)
    ensures r.Err? <==> Macros.Obfuscate(tokens, rng).Err?
    ensures r.Err? ==> r.error == Macros.Obfuscate(tokens, rng).error
    ensures r.Ok? ==>
              var lit := Macros.Core(tokens[0]).lit;
              r.value.Marker() == Macros.KindOf(lit) && r.value.Bytes() == Macros.Payload(lit)
    ensures r.Ok? ==> |wiped| == |r.value.Bytes()|
    ensures forall i :: 0 <= i < |wiped| ==> wiped[i] == 0
  {
    match Macros.Obfuscate(tokens, rng)
    case Err(e) =>
      r := Err(e);
      wiped := [];
    case Ok(table) =>
      ObfuscateSound(tokens, rng);
      var d := Decrypt(table);
      var v := AsInner(d);
      r := Ok(v);
      var after := Drop(d);
      wiped := after.data;
  }
}
