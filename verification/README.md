# obfustr in Dafny

A model of obfustr, a Rust library that hides string, byte-string and C-string literals in a
compiled binary. It has two halves:

- **The procedural macro** (`obfustr-macros`) runs at build time. It checks that its argument is
  exactly one literal and looks through invisible (`Delimiter::None`) groups to find it. It then
  dispatches on the literal kind and turns every payload byte `b` into the 16-bit unit
  `u16::from_le_bytes([b ^ pad, pad])`, with a fresh random `pad` for each byte. The table is
  tagged with a marker type: `str`, `[u8]` or `CStr`. A C string's table includes its
  terminating NUL.
- **The run-time library** (`obfustr`) decrypts such a table into a freshly allocated buffer. It
  splits each unit into its low and high byte and writes their XOR. The buffer is viewed as the
  marked type through `as_inner`, `deref`, `as_ref` or `borrow`. It is overwritten with zeroes
  when it is dropped.

The model has these modules:

- `Results`: a `Result` type, so that `:-` stands for Rust's `?`.
- `Units`: the unit packing (`from_le_bytes` and `to_le_bytes`), the `Kind` marker, and the
  table.
- `Text`: UTF-8 well-formedness as defined in section 4 of RFC 3629, the NUL rules for C
  strings, and what each kind demands of its bytes.
- `Macros`: token validation, kind dispatch and the three encoders.
- `Obfustr`: decryption, the views, drop, and the `obfuscate!` macro from expansion to drop.
- `Scenarios`: the repository's test cases and the macro's rejections.

The randomness is a parameter, `rng: nat -> bv8`. The i-th `rand::random()` draw of one macro
expansion is `rng(i)`, and it pads byte i. Every property is proved for all `rng`.

Central results:

- `Obfustr.RoundTrip` and `Obfustr.ObfuscateSound`: for any pads, decrypting the expansion gives
  back the literal's bytes. Those bytes are therefore valid for the marker, which is the safety
  condition `Obfuscated::new_unchecked` trusts.
- `Obfustr.ObfuscateMacro`: the view returned by `obfuscate!` has the literal's kind and bytes.
  After the drop, the buffer has the same length and holds only zeroes.
- `Macros.ExpectLiteral` and `Macros.Obfuscate` are checked against two reference functions.
  `Macros.Core` peels invisible groups that hold exactly one token. `Macros.Head` peels
  invisible groups through their first token. The macro succeeds if and only if there is exactly
  one argument and its core is a string-kind literal. Which error a rejected argument gets is
  decided by its head:
  - an empty invisible group, or no argument at all, gives "unexpected end" at the call site;
  - a head that is neither a literal nor an invisible group gives "expected a literal" at the
    head;
  - a literal head whose core is not a literal, or a literal followed by a second argument,
    gives "unexpected tokens";
  - a single argument whose core is a literal of another kind gives the kind error at that
    literal.

Notes on the source:

- The safety comment of `new_unchecked` (obfustr/src/lib.rs:85-86) says the data must decrypt to
  valid UTF-8. That is only the condition for `str`. For `CStr` the data must end in its only
  NUL, and for `[u8]` there is no condition. `Text.ValidFor` states the condition per kind,
  as `Data::from_raw` needs it.

## Model

| member | source | states |
|---|---|---|
| `Units.FromLeBytes` | obfustr-macros/src/lib.rs:30 | `from_le_bytes([lo, hi])` is `lo + 256 * hi`: the masked byte is the low half and the pad the high half |
| `Units.ToLeBytes` | obfustr/src/lib.rs:99 | `to_le_bytes` returns `(low, high)` such that the unit equals `low + 256 * high` |
| `Units.ToLeBytesOfFromLeBytes` | obfustr/src/lib.rs:99 | splitting a packed unit gives back the masked byte and the pad it was packed from |
| `Units.FromLeBytesOfToLeBytes` | obfustr/src/lib.rs:99 | packing the two halves of any unit gives back that unit, so every unit is some masked byte with some pad |
| `Text.WithNul` | obfustr-macros/src/lib.rs:60 | `as_bytes_with_nul` of NUL-free bytes ends in its only NUL; a C string can only be built from NUL-free bytes |
| `Macros.MessagesDistinct` | obfustr-macros/src/lib.rs:13-96 | `Macros.Message` holds the four texts of lines 21, 75, 85 and 92, and no two error kinds share a text |
| `Macros.ExpectEmpty` | obfustr-macros/src/lib.rs:90-96 | succeeds exactly when no token is left; otherwise "unexpected tokens" at the first leftover token |
| `Macros.ExpectLiteral` | obfustr-macros/src/lib.rs:73-88 | succeeds if and only if there is a first token and its core (single-token invisible groups peeled) is a literal; returns that literal and the tokens after the first; never yields the kind error. Failures by kind: "unexpected end" at the call site exactly when there is no token or the head is an empty invisible group; "expected a literal" at the head exactly when the head is neither a literal nor an invisible group; "unexpected tokens" exactly when the head is a literal but the core is not |
| `Macros.CoreLiteralIsHead` | obfustr-macros/src/lib.rs:78-83 | when peeling single-token groups reaches a literal, peeling through first tokens reaches the same literal |
| `Macros.FirstCoreLiteralIsHead` | obfustr-macros/src/lib.rs:78-83 | the same fact for the first token of a stream |
| `Macros.NotALiteralAtHead` | obfustr-macros/src/lib.rs:84-86 | a first token that is neither a literal nor an invisible group gives "expected a literal" at that token |
| `Macros.TrailingInsideGroup` | obfustr-macros/src/lib.rs:78-83 | a literal followed by more tokens inside an invisible group gives "unexpected tokens" at the first extra token |
| `Macros.HeadDecides` | obfustr-macros/src/lib.rs:73-88 | errors and the literal found depend only on the first token |
| `Macros.TransparentGroup` | obfustr-macros/src/lib.rs:78-83 | an invisible group around one token gives exactly what the bare token gives, success or error |
| `Macros.Payload` | obfustr-macros/src/lib.rs:25-63 | the bytes each kind encodes (`value()` of lines 26 and 42, `as_bytes_with_nul()` of lines 59-60): a string's are exactly the text's UTF-8 bytes, a byte string's are its bytes, and a C string's are its NUL-free bytes followed by the one NUL |
| `Macros.KindOf` | obfustr-macros/src/lib.rs:36-68 | the marker (`str`, `[u8]` or `CStr` at lines 36, 52 and 68) is one under which the literal's payload is valid |
| `Macros.Draws` | obfustr-macros/src/lib.rs:29 | the pad for byte i is the i-th random draw |
| `Macros.Mask` | obfustr-macros/src/lib.rs:27-31 | one unit per byte; unit i is `(byte_i ^ pad_i) + 256 * pad_i` |
| `Macros.ObfuscateStr` | obfustr-macros/src/lib.rs:25-39 | tagged `str`; the table masks the text's bytes one unit per byte under the draws |
| `Macros.ObfuscateByteStr` | obfustr-macros/src/lib.rs:41-55 | tagged `[u8]`; the table masks the bytes one unit per byte under the draws |
| `Macros.ObfuscateCStr` | obfustr-macros/src/lib.rs:57-71 | tagged `CStr`; the table masks the bytes plus the NUL, so it has length + 1 units, and the last unit has equal halves, so it decrypts to 0 |
| `Macros.Obfuscate` | obfustr-macros/src/lib.rs:13-23 | succeeds if and only if there is exactly one argument and its core is a Str, ByteStr or CStr literal; the marker then follows the kind and the table encodes the payload; otherwise: "unexpected end" exactly when there is no argument or the head is an empty invisible group, "expected a literal" at the head exactly when the head is neither a literal nor an invisible group, "unexpected tokens" exactly when the head is a literal and either the core is not a literal or a second argument follows (at that second token in the latter case), the kind error at a literal of another kind |
| `Text.CStrSplits` | obfustr/src/lib.rs:190-193 | bytes end in their only NUL exactly when they are some NUL-free bytes followed by NUL |
| `Text.ValidFor` | obfustr/src/lib.rs:168-194 | the `from_raw` safety condition per type: for `[u8]` every byte sequence is valid; for `CStr` exactly the NUL-free bytes followed by one NUL (the `str` case is `Text.ValidUtf8` by definition) |
| `Obfustr.Unmask` | obfustr/src/lib.rs:95-101 | one byte per unit; byte i is the byte that unit i hides under its high half as pad, that is, low XOR high |
| `Obfustr.Decrypt` | obfustr/src/lib.rs:93-110 | the buffer has the table's length, holds the unmasked bytes and carries the table's marker |
| `Obfustr.Drop` | obfustr/src/lib.rs:124-134 | after the drop every byte is 0, the length is unchanged, and the marker is kept |
| `Obfustr.FromRaw` | obfustr/src/lib.rs:168-194 | given bytes valid for the kind (UTF-8 for `str`, one final NUL for `CStr`, anything for `[u8]`), the view has that kind and covers exactly those bytes; for `[u8]` this is the identity |
| `Obfustr.ViewDetermined` | obfustr/src/lib.rs:170-176 | a view is fixed by its kind and its bytes, so the contract of `FromRaw` has one solution |
| `Obfustr.AsInner` | obfustr/src/lib.rs:113-121 | the view of a buffer whose bytes are valid for its marker has that marker's type and covers the whole buffer |
| `Obfustr.Deref` | obfustr/src/lib.rs:136-142 | same view as `as_inner` |
| `Obfustr.AsRef` | obfustr/src/lib.rs:144-148 | same view as `as_inner` |
| `Obfustr.Borrow` | obfustr/src/lib.rs:150-154 | same view as `as_inner` |
| `Obfustr.AccessorsAgree` | obfustr/src/lib.rs:136-154 | `deref`, `as_ref` and `borrow` return the value `as_inner` returns |
| `Obfustr.UnitDetermines` | obfustr/src/lib.rs:99 | a unit determines the byte it hides and its pad |
| `Obfustr.DecodesEncoded` | obfustr/src/lib.rs:95-101 | any table that masks some bytes under any pads decrypts to those bytes |
| `Obfustr.RoundTrip` | obfustr/src/lib.rs:95-101 | decrypting the encoder's units gives back the original bytes, for every pad sequence |
| `Obfustr.ObfuscateSound` | obfustr/src/lib.rs:83-90 | every macro expansion decrypts to its literal's payload, and that payload is valid for the marker, so the promise `new_unchecked` relies on is kept |
| `Obfustr.ObfuscateMacro` | obfustr/src/lib.rs:56-63 | `obfuscate!` fails to build exactly when the expansion fails, with the same error; otherwise the view has the literal's kind and bytes; the buffer left after the drop has the view's length and is all zero |
| `Scenarios.HelloStr` | obfustr/tests/obfuscate.rs:3-6 | `"hello!"` expands to a 6-unit `str` table that decrypts to `hello!` |
| `Scenarios.HelloByteStr` | obfustr/tests/obfuscate.rs:8-11 | `b"hello!"` expands to a 6-unit `[u8]` table that decrypts to `hello!` |
| `Scenarios.HelloCStr` | obfustr/tests/obfuscate.rs:13-16 | `c"hello!"` expands to a 7-unit `CStr` table that decrypts to `hello!` and its NUL |
| `Scenarios.HelloThroughGroup` | obfustr-macros/src/lib.rs:78-83 | `"hello!"` inside an invisible group expands as the bare literal does |
| `Scenarios.EmptyLiterals` | obfustr-macros/src/lib.rs:57-63 | `""` gives an empty table; `c""` gives one unit that decrypts to NUL |
| `Scenarios.Rejections` | obfustr-macros/src/lib.rs:13-23 | an identifier, two comma-separated literals, no argument and an integer literal each give their own error at the right span |

## Left out

- Proc-macro plumbing is not modelled: `obfuscate_raw`, the `TokenStream` conversions, the `quote!` code emission and `to_compile_error`. The expansion is the `Table` value itself, and a build failure is the `Error` value.
- Token parsing by `syn` is not modelled: escape processing, UTF-8 checking and the CStr interior-NUL check. A literal token carries its already parsed `Lit`. The string value is UTF-8 bytes and the C-string value is NUL-free bytes, both enforced by subset types.
- Spans are not positions: an error's span is the call site or the token it points at.
- `rand::random()` is the parameter `rng`. Nothing is claimed about the distribution of pads or about differences between builds.
- Volatile reads and writes are ordinary sequence reads and writes. The guarantee that the optimizer keeps them cannot be expressed.
- `Box::new_uninit_slice`, `MaybeUninit`, `assume_init`, `transmute` and the `repr(transparent)` cast are modelled as plain sequences and values. Every value is immutable, so "decrypt only reads the table" holds by construction.
- `Obfuscated::new_unchecked` is the identity on the table. Its safety condition is the predicate `Obfustr.Sound`, proved for every expansion by `Obfustr.ObfuscateSound`.
- The `Display` and `Debug` impls and the `const { ... }` block in `obfuscate!` are not modelled: they are formatting and compile-time evaluation.
- Obfustr.ObfuscateMacro: the view is modelled as a copy of the buffer's bytes, not as a borrow of the buffer. In Rust the view returned by `.decrypt().as_inner()` lives no longer than the temporary buffer. The model cannot express that the view ends when the buffer is wiped, so it returns a view that still holds the plaintext next to the wiped bytes.
- Release of the buffer's memory after the drop is not modelled. The model states the bytes the buffer holds just before release.
