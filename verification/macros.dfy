/** The build-time half (`obfustr-macros`): validation of the macro's argument tokens,
    dispatch on the literal kind, and the masking of every payload byte with a pad byte. */
module Macros {
  import opened Results
  import opened Units
  import opened Text

  /** `proc_macro2::Delimiter`; `NoDelim` is `Delimiter::None`, the invisible group the
      compiler wraps around a substituted macro fragment. */
  datatype Delimiter = Parenthesis | Brace | Bracket | NoDelim

  /** `syn::Lit`, the literal a literal token parses to. String values are held as the
      bytes they stand for: UTF-8 for a string, NUL-free for a C string (without the
      terminator). */
  datatype Lit =
    | LitStr(text: Utf8Bytes)
    | LitByteStr(bytes: seq<bv8>)
    | LitCStr(cbytes: NulFreeBytes)
    | LitByte(byte: bv8)
    | LitChar(ch: char)
    | LitInt(digits: string)
    | LitFloat(digits: string)
    | LitVerbatim(source: string)

  /** `proc_macro2::TokenTree`. */
  datatype TokenTree =
    | Literal(lit: Lit)
    | Group(delimiter: Delimiter, stream: seq<TokenTree>)
    | Ident(name: string)
    | Punct(op: char)

  /** Where an error is reported: the macro call site, or the span of a token. */
  datatype Span = CallSite | At(tree: TokenTree)

  /** The four ways the macro argument can be rejected. */
  datatype ErrorKind = UnexpectedEnd | NotALiteral | TrailingTokens | UnsupportedKind

  /** `syn::Error`: a message (given by its kind) and a span. */
  datatype Error = Error(kind: ErrorKind, span: Span)

  /** The diagnostic text of each error kind. */
  function Message(k: ErrorKind): string {
    match k
    case UnexpectedEnd => "unexpected end of arguments, expected a literal"
    case NotALiteral => "expected a literal"
    case TrailingTokens => "unexpected tokens"
    case UnsupportedKind => "expected a string, byte string or C string literal"
  }

  /** Each way the input can fail gives its own message. */
  lemma MessagesDistinct(a: ErrorKind, b: ErrorKind)
    ensures Message(a) == Message(b) ==> a == b
  {
  }

  /** A token with any number of invisible single-token groups peeled off: the token that
      the argument "really" is. */
  function Core(t: TokenTree): TokenTree
    decreases t
  {
    if t.Group? && t.delimiter == NoDelim && |t.stream| == 1 then Core(t.stream[0]) else t
  }

  /** `expect_empty`: the remaining tokens must be exhausted. */
  function ExpectEmpty(tokens: seq<TokenTree>): (r: Result<(), Error>)
    ensures r.Ok? <==> tokens == []
    ensures r.Err? ==> r.error == Error(TrailingTokens, At(tokens[0]))
  {
    if |tokens| == 0 then Ok(()) else Err(Error(TrailingTokens, At(tokens[0])))
  }

  /** A token with invisible groups peeled off through their first token: the token that
      `expect_literal` inspects before it looks at anything that follows. */
  function Head(t: TokenTree): TokenTree
    decreases t
  {
    if t.Group? && t.delimiter == NoDelim && |t.stream| > 0 then Head(t.stream[0]) else t
  }

  /** When peeling single-token groups reaches a literal, peeling through first tokens
      reaches the same literal. */
  lemma {:induction false} CoreLiteralIsHead(t: TokenTree)
    ensures Core(t).Literal? ==> Head(t) == Core(t)
    decreases t
  {
    if t.Group? && t.delimiter == NoDelim && |t.stream| == 1 {
      CoreLiteralIsHead(t.stream[0]);
    }
  }

  /** `CoreLiteralIsHead` for the first token of a stream, if there is one. */
  lemma FirstCoreLiteralIsHead(tokens: seq<TokenTree>)
    ensures |tokens| > 0 && Core(tokens[0]).Literal? ==> Head(tokens[0]) == Core(tokens[0])
  {
    if |tokens| > 0 {
      CoreLiteralIsHead(tokens[0]);
    }
  }

  /** `expect_literal`: takes one literal off the front of `tokens`, looking through
      invisible groups, and returns it with the tokens that follow it. */
  function ExpectLiteral(tokens: seq<TokenTree>): (r: Result<(Lit, seq<TokenTree>), Error>)
    ensures r.Ok? <==> |tokens| > 0 && Core(tokens[0]).Literal?
    ensures r.Ok? ==> r.value == (Core(tokens[0]).lit, tokens[1..])
    ensures r.Err? ==> r.error.kind != UnsupportedKind
    ensures tokens == [] ==> r == Err(Error(UnexpectedEnd, CallSite))
    ensures (r.Err? && r.error.kind == UnexpectedEnd) <==>
              (tokens == [] || Head(tokens[0]) == Group(NoDelim, []))
    ensures r.Err? && r.error.kind == UnexpectedEnd ==> r.error.span == CallSite
    ensures (r.Err? && r.error.kind == NotALiteral) <==>
              (|tokens| > 0 && !Head(tokens[0]).Literal?
               && !(Head(tokens[0]).Group? && Head(tokens[0]).delimiter == NoDelim))
    ensures r.Err? && r.error.kind == NotALiteral ==> r.error.span == At(Head(tokens[0]))
    ensures (r.Err? && r.error.kind == TrailingTokens) <==>
              (|tokens| > 0 && Head(tokens[0]).Literal? && !Core(tokens[0]).Literal?)
    decreases tokens
  {
    if |tokens| == 0 then Err(Error(UnexpectedEnd, CallSite))
    else
      match tokens[0]
      case Literal(lit) => Ok((lit, tokens[1..]))
      case Group(NoDelim, inner) =>
        FirstCoreLiteralIsHead(inner);
        var (lit, rest) :- ExpectLiteral(inner);
        var _ :- ExpectEmpty(rest);
        Ok((lit, tokens[1..]))
      case tree => Err(Error(NotALiteral, At(tree)))
  }

  /** A first token that is neither a literal nor an invisible group is rejected at that
      token. */
  lemma NotALiteralAtHead(tokens: seq<TokenTree>)
    requires |tokens| > 0 && !tokens[0].Literal?
    requires !(tokens[0].Group? && tokens[0].delimiter == NoDelim)
    ensures ExpectLiteral(tokens) == Err(Error(NotALiteral, At(tokens[0])))
  {
  }

  /** A token after the literal inside an invisible group is rejected at that token. */
  lemma TrailingInsideGroup(lit: Lit, extra: seq<TokenTree>, rest: seq<TokenTree>)
    requires |extra| > 0
    ensures ExpectLiteral([Group(NoDelim, [Literal(lit)] + extra)] + rest)
         == Err(Error(TrailingTokens, At(extra[0])))
  {
    assert ([Literal(lit)] + extra)[1..] == extra;
  }

  /** The result depends on the first token, and on the rest only through what is handed
      back. */
  lemma HeadDecides(a: seq<TokenTree>, b: seq<TokenTree>)
    requires |a| > 0 && |b| > 0 && a[0] == b[0]
    ensures ExpectLiteral(a).Err? ==> ExpectLiteral(a) == ExpectLiteral(b)
    ensures ExpectLiteral(a).Ok? ==> ExpectLiteral(a).value.0 == ExpectLiteral(b).value.0
  {
  }

  /** An invisible group around a single token is transparent: it gives exactly what the
      bare token gives, whatever that token is. */
  lemma {:induction false} TransparentGroup(t: TokenTree, rest: seq<TokenTree>)
    ensures ExpectLiteral([Group(NoDelim, [t])] + rest) == ExpectLiteral([t] + rest)
  {
    HeadDecides([t], [t] + rest);
  }

  /** The string kinds the macro accepts. */
  predicate IsStringLit(lit: Lit) {
    lit.LitStr? || lit.LitByteStr? || lit.LitCStr?
  }

  /** The marker a string literal is tagged with. */
  function KindOf(lit: Lit): (k: Kind)
    requires IsStringLit(lit)
    ensures ValidFor(k, Payload(lit))
  {
    match lit
    case LitStr(_) => Str
    case LitByteStr(_) => ByteSlice
    case LitCStr(_) => CStr
  }

  /** The bytes a string literal stands for; a C string's include its terminator. */
  function Payload(lit: Lit): (p: seq<bv8>)
    requires IsStringLit(lit)
    ensures lit.LitStr? ==> p == lit.text && ValidUtf8(p)
    ensures lit.LitByteStr? ==> p == lit.bytes
    ensures lit.LitCStr? ==> IsCStrWithNul(p) && p[..|p| - 1] == lit.cbytes
  {
    match lit
    case LitStr(v) => v
    case LitByteStr(v) => v
    case LitCStr(v) => WithNul(v); v + [0]
  }

  /** `units` is an encoding of `payload` under the pad draws `rng`: one unit per byte, and
      unit i is the masked byte plus 256 times pad i. */
  ghost predicate Encodes(units: seq<bv16>, payload: seq<bv8>, rng: nat -> bv8) {
    && |units| == |payload|
    && forall i :: 0 <= i < |units| ==>
         Masks(units[i], payload[i], rng(i))
  }

  /** The first `n` values of `rand::random()` in the order they are drawn. */
  function Draws(rng: nat -> bv8, n: nat): (pads: seq<bv8>)
    ensures |pads| == n
    ensures forall i :: 0 <= i < n ==> pads[i] == rng(i)
  {
    seq(n, i requires 0 <= i < n => rng(i))
  }

  /** The loop shared by the three encoders: every byte becomes
      `u16::from_le_bytes([byte ^ pad, pad])`. */
  function Mask(bytes: seq<bv8>, pads: seq<bv8>): (units: seq<bv16>)
    requires |pads| == |bytes|
    ensures |units| == |bytes|
    ensures forall i :: 0 <= i < |units| ==>
              Masks(units[i], bytes[i], pads[i])
    decreases |bytes|
  {
    if |bytes| == 0 then []
    else
      var head := FromLeBytes(bytes[0] ^ pads[0], pads[0]);
      var tail := Mask(bytes[1..], pads[1..]);
      [head] + tail
  }

  /** `obfuscate_str`: one unit per byte of the text, tagged `str`. */
  function ObfuscateStr(value: Utf8Bytes, rng: nat -> bv8): (t: Table)
    ensures t.marker == Str
    ensures Encodes(t.data, value, rng)
  {
    Table(Str, Mask(value, Draws(rng, |value|)))
  }

  /** `obfuscate_byte_str`: one unit per byte, tagged `[u8]`. */
  function ObfuscateByteStr(value: seq<bv8>, rng: nat -> bv8): (t: Table)
    ensures t.marker == ByteSlice
    ensures Encodes(t.data, value, rng)
  {
    Table(ByteSlice, Mask(value, Draws(rng, |value|)))
  }

  /** `obfuscate_cstr`: one unit per byte including the terminator, tagged `CStr`; the
      last unit's two bytes are equal, so it unmasks to NUL. */
  function ObfuscateCStr(value: NulFreeBytes, rng: nat -> bv8): (t: Table)
    ensures t.marker == CStr
    ensures Encodes(t.data, value + [0], rng)
    ensures |t.data| == |value| + 1
    ensures ToLeBytes(t.data[|value|]).0 == ToLeBytes(t.data[|value|]).1
  {
    var withNul := value + [0];
    Table(CStr, Mask(withNul, Draws(rng, |withNul|)))
  }

  /** `obfuscate`: exactly one literal argument, of a string kind, else an error. */
  function Obfuscate(tokens: seq<TokenTree>, rng: nat -> bv8): (r: Result<Table, Error>)
    ensures r.Ok? <==>
              |tokens| == 1 && Core(tokens[0]).Literal? && IsStringLit(Core(tokens[0]).lit)
    ensures r.Ok? ==>
              var lit := Core(tokens[0]).lit;
              r.value.marker == KindOf(lit) && Encodes(r.value.data, Payload(lit), rng)
    ensures tokens == [] ==> r == Err(Error(UnexpectedEnd, CallSite))
    ensures |tokens| > 1 && Core(tokens[0]).Literal? ==>
              r == Err(Error(TrailingTokens, At(tokens[1])))
    ensures |tokens| == 1 && Core(tokens[0]).Literal? && !IsStringLit(Core(tokens[0]).lit) ==>
              r == Err(Error(UnsupportedKind, At(Core(tokens[0]))))
    ensures (r.Err? && r.error.kind == UnexpectedEnd) <==>
              (tokens == [] || Head(tokens[0]) == Group(NoDelim, []))
    ensures (r.Err? && r.error.kind == NotALiteral) <==>
              (|tokens| > 0 && !Head(tokens[0]).Literal?
               && !(Head(tokens[0]).Group? && Head(tokens[0]).delimiter == NoDelim))
    ensures r.Err? && r.error.kind == NotALiteral ==> r.error.span == At(Head(tokens[0]))
    ensures (r.Err? && r.error.kind == TrailingTokens) <==>
              (|tokens| > 0 && Head(tokens[0]).Literal? && (!Core(tokens[0]).Literal? || |tokens| > 1))
  {
    FirstCoreLiteralIsHead(tokens);
    var (lit, rest) :- ExpectLiteral(tokens);
    var _ :- ExpectEmpty(rest);
    match lit
    case LitStr(v) => Ok(ObfuscateStr(v, rng))
    case LitByteStr(v) => Ok(ObfuscateByteStr(v, rng))
    case LitCStr(v) => Ok(ObfuscateCStr(v, rng))
    case _ => Err(Error(UnsupportedKind, At(Literal(lit))))
  }
}
