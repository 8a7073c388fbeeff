/** The repository's test cases (`obfuscate!` of `"hello!"`, `b"hello!"` and `c"hello!"`)
    and the macro's rejections, proved for every sequence of pad draws. */
module Scenarios {
  import opened Results
  import opened Units
  import opened Text
  import opened Macros
  import Obfustr

  /** The bytes of `hello!`. */
  function Hello(): (s: seq<bv8>)
    ensures |s| == 6 && NulFree(s) && ValidUtf8(s)
  {
    var s: seq<bv8> := [104, 101, 108, 108, 111, 33];
    AsciiIsUtf8(s);
    s
  }

  /** `obfuscate!("hello!")` gives `"hello!"`. */
  lemma HelloStr(rng: nat -> bv8)
    ensures var r := Obfuscate([Literal(LitStr(Hello()))], rng);
            && r.Ok? && r.value.marker == Str && |r.value.data| == 6
            && Obfustr.Unmask(r.value.data) == Hello()
  {
    Obfustr.ObfuscateSound([Literal(LitStr(Hello()))], rng);
  }

  /** `obfuscate!(b"hello!")` gives `b"hello!"`. */
  lemma HelloByteStr(rng: nat -> bv8)
    ensures var r := Obfuscate([Literal(LitByteStr(Hello()))], rng);
            && r.Ok? && r.value.marker == ByteSlice && |r.value.data| == 6
            && Obfustr.Unmask(r.value.data) == Hello()
  {
    Obfustr.ObfuscateSound([Literal(LitByteStr(Hello()))], rng);
  }

  /** `obfuscate!(c"hello!")` gives `c"hello!"`: seven units, the last one the terminator. */
  lemma HelloCStr(rng: nat -> bv8)
    ensures var r := Obfuscate([Literal(LitCStr(Hello()))], rng);
            && r.Ok? && r.value.marker == CStr && |r.value.data| == 7
            && Obfustr.Unmask(r.value.data) == Hello() + [0]
  {
    Obfustr.ObfuscateSound([Literal(LitCStr(Hello()))], rng);
  }

  /** The literal may arrive wrapped in an invisible group, as it does when the macro is
      called from another macro. */
  lemma HelloThroughGroup(rng: nat -> bv8)
    ensures Obfuscate([Group(NoDelim, [Literal(LitStr(Hello()))])], rng)
         == Obfuscate([Literal(LitStr(Hello()))], rng)
  {
  }

  /** An empty string gives an empty table; an empty C string a single unit for the
      terminator. */
  lemma EmptyLiterals(rng: nat -> bv8)
    ensures Obfuscate([Literal(LitStr([]))], rng) == Ok(Table(Str, []))
    ensures var r := Obfuscate([Literal(LitCStr([]))], rng);
            r.Ok? && |r.value.data| == 1 && Obfustr.Unmask(r.value.data) == [0]
  {
    Obfustr.ObfuscateSound([Literal(LitCStr([]))], rng);
  }

  /** A non-literal argument, two arguments, no argument, and a literal of another kind are
      each rejected with their own error. */
  lemma Rejections(rng: nat -> bv8)
    ensures Obfuscate([Ident("x")], rng) == Err(Error(NotALiteral, At(Ident("x"))))
    ensures Obfuscate([Literal(LitStr(Hello())), Punct(','), Literal(LitStr(Hello()))], rng)
         == Err(Error(TrailingTokens, At(Punct(','))))
    ensures Obfuscate([], rng) == Err(Error(UnexpectedEnd, CallSite))
    ensures Obfuscate([Literal(LitInt("42"))], rng)
         == Err(Error(UnsupportedKind, At(Literal(LitInt("42")))))
  {
  }
}
