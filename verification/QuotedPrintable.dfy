/** Quoted-printable decoding, section 6.7 of RFC 2045: soft line breaks are removed, then hex pairs are
    read. Bytes stand for the characters of a Latin-1 text. */
module QuotedPrintable {

  import opened Prelude

  const LF: Byte := 10
  const CR: Byte := 13
  const EQUALS: Byte := 61

  datatype Ending = CrLf | BareLf | BareCr

  /** The pieces of an encoded text: a byte as itself, a byte as a hex pair with digits of either case, or a
      soft line break. */
  datatype Token =
    | Literal(byte: Byte)
    | Hex(byte: Byte, upperHigh: bool, upperLow: bool)
    | Soft(ending: Ending)

  // ---------------------------------------------------------------------------------------------
  // Encoding
  // ---------------------------------------------------------------------------------------------

  function Digit(n: nat, upper: bool): Byte
    requires n < 16
  {
    if n < 10 then 48 + n else (if upper then 65 else 97) + n - 10
  }

  function Spell(t: Token): seq<Byte> {
    match t
    case Literal(b) => [b]
    case Hex(b, high, low) => [EQUALS, Digit(b / 16, high), Digit(b % 16, low)]
    case Soft(CrLf) => [EQUALS, CR, LF]
    case Soft(BareLf) => [EQUALS, LF]
    case Soft(BareCr) => [EQUALS, CR]
  }

  function Encode(ts: seq<Token>): seq<Byte> {
    if ts == [] then [] else Spell(ts[0]) + Encode(ts[1..])
  }

  /** The bytes a token sequence stands for. */
  function Bytes(ts: seq<Token>): seq<Byte> {
    if ts == [] then []
    else (if ts[0].Soft? then [] else [ts[0].byte]) + Bytes(ts[1..])
  }

  /** An equals sign is never written as itself. */
  predicate Legal(ts: seq<Token>) {
    forall t | t in ts :: t.Literal? ==> t.byte != EQUALS
  }

  /** A bare-CR soft break directly before a literal LF: together they read as one CRLF break. */
  predicate Swallows(ts: seq<Token>, k: int) {
    0 <= k < |ts| - 1 && ts[k] == Soft(BareCr) && ts[k + 1] == Literal(LF)
  }

  // ---------------------------------------------------------------------------------------------
  // Decoding
  // ---------------------------------------------------------------------------------------------

  /** Removes every soft line break, scanning once from the left. */
  function Unfold(s: seq<Byte>): seq<Byte> {
    if s == [] then []
    else if |s| > 2 && s[0] == EQUALS && s[1] == CR && s[2] == LF then Unfold(s[3..])
    else if |s| > 1 && s[0] == EQUALS && (s[1] == LF || s[1] == CR) then Unfold(s[2..])
    else [s[0]] + Unfold(s[1..])
  }

  predicate IsDigit(b: Byte) {
    48 <= b <= 57 || 65 <= b <= 70 || 97 <= b <= 102
  }

  function Value(b: Byte): nat
    requires IsDigit(b)
  {
    if b <= 57 then b - 48 else if b <= 70 then b - 55 else b - 87
  }

  predicate AtPair(u: seq<Byte>, i: int) {
    0 <= i && i + 2 < |u| && u[i] == EQUALS && IsDigit(u[i + 1]) && IsDigit(u[i + 2])
  }

  /** Reads hex pairs; an equals sign that starts none is kept. */
  function Unhex(u: seq<Byte>): seq<Byte> {
    if u == [] then []
    else if AtPair(u, 0) then [16 * Value(u[1]) + Value(u[2])] + Unhex(u[3..])
    else [u[0]] + Unhex(u[1..])
  }

  lemma UnhexFrom(u: seq<Byte>, i: nat)
    requires i < |u|
    ensures Unhex(u[i..]) ==
            if AtPair(u, i) then [16 * Value(u[i + 1]) + Value(u[i + 2])] + Unhex(u[i + 3..])
            else [u[i]] + Unhex(u[i + 1..])
  {
    var rest := u[i..];
    assert AtPair(u, i) <==> AtPair(rest, 0);
    assert AtPair(u, i) ==> rest[3..] == u[i + 3..];
    assert rest[1..] == u[i + 1..];
  }

  lemma Regroup(bytes: seq<Byte>, byte: Byte, rest: seq<Byte>)
    ensures bytes + [byte] + rest == bytes + ([byte] + rest)
  {
  }

  method Decode(text: seq<Byte>) returns (bytes: seq<Byte>)
    ensures bytes == Unhex(Unfold(text))
  {
    var u := Unfold(text);
    bytes := [];
    var i := 0;
    while i < |u|
      invariant i <= |u|
      invariant bytes + Unhex(u[i..]) == Unhex(u)
    {
      UnhexFrom(u, i);
      var byte, next := u[i], i + 1;
      if AtPair(u, i) {
        byte, next := 16 * Value(u[i + 1]) + Value(u[i + 2]), i + 3;
      }
      Regroup(bytes, byte, Unhex(u[next..]));
      bytes := bytes + [byte];
      i := next;
    }
  }

  // ---------------------------------------------------------------------------------------------
  // Round trip
  // ---------------------------------------------------------------------------------------------

  /** What is left of the tokens once soft breaks are removed, with what a bare CR swallows. */
  function Unfolded(ts: seq<Token>): seq<Token> {
    if ts == [] then []
    else if Swallows(ts, 0) then Unfolded(ts[2..])
    else if ts[0].Soft? then Unfolded(ts[1..])
    else [ts[0]] + Unfolded(ts[1..])
  }

  lemma ValueOfDigit(n: nat, upper: bool)
    requires n < 16
    ensures IsDigit(Digit(n, upper)) && Value(Digit(n, upper)) == n
    ensures Digit(n, upper) != CR && Digit(n, upper) != LF
    ensures Digit(n, upper) as char == (if upper then "0123456789ABCDEF" else "0123456789abcdef")[n]
  {
  }

  lemma EncodeLead(ts: seq<Token>)
    ensures ts != [] ==> Encode(ts) != [] && Encode(ts)[0] == if ts[0].Literal? then ts[0].byte else EQUALS
    ensures ts == [] ==> Encode(ts) == []
  {
  }

  lemma UnfoldPlain(b: Byte, s: seq<Byte>)
    requires b != EQUALS || (s != [] && s[0] != CR && s[0] != LF)
    ensures Unfold([b] + s) == [b] + Unfold(s)
  {
    assert ([b] + s)[1..] == s;
  }

  lemma UnfoldHex(t: Token, s: seq<Byte>)
    requires t.Hex?
    ensures Unfold(Spell(t) + s) == Spell(t) + Unfold(s)
  {
    var high, low := Digit(t.byte / 16, t.upperHigh), Digit(t.byte % 16, t.upperLow);
    ValueOfDigit(t.byte / 16, t.upperHigh);
    ValueOfDigit(t.byte % 16, t.upperLow);
    UnfoldPlain(low, s);
    UnfoldPlain(high, [low] + s);
    UnfoldPlain(EQUALS, [high] + ([low] + s));
    assert Spell(t) + s == [EQUALS] + ([high] + ([low] + s));
    assert Spell(t) + Unfold(s) == [EQUALS] + ([high] + ([low] + Unfold(s)));
  }

  lemma UnfoldSoft(t: Token, s: seq<Byte>)
    requires t.Soft? && !(t.ending.BareCr? && s != [] && s[0] == LF)
    ensures Unfold(Spell(t) + s) == Unfold(s)
  {
    assert (Spell(t) + s)[|Spell(t)|..] == s;
  }

  lemma {:induction false} UnfoldEncode(ts: seq<Token>)
    requires Legal(ts)
    ensures Unfold(Encode(ts)) == Encode(Unfolded(ts))
  {
    if ts != [] {
      var rest := ts[1..];
      EncodeLead(rest);
      if Swallows(ts, 0) {
        assert rest[1..] == ts[2..];
        assert Encode(ts) == Spell(Soft(CrLf)) + Encode(ts[2..]);
        UnfoldSoft(Soft(CrLf), Encode(ts[2..]));
        UnfoldEncode(ts[2..]);
      } else {
        UnfoldEncode(rest);
        assert ts[0] in ts;
        match ts[0]
        case Literal(b) => UnfoldPlain(b, Encode(rest));
        case Hex(_, _, _) => UnfoldHex(ts[0], Encode(rest));
        case Soft(_) => UnfoldSoft(ts[0], Encode(rest));
      }
    }
  }

  lemma UnhexToken(t: Token, s: seq<Byte>)
    requires !t.Soft? && (t.Literal? ==> t.byte != EQUALS)
    ensures Unhex(Spell(t) + s) == [t.byte] + Unhex(s)
  {
    assert (Spell(t) + s)[|Spell(t)|..] == s;
    if t.Hex? {
      ValueOfDigit(t.byte / 16, t.upperHigh);
      ValueOfDigit(t.byte % 16, t.upperLow);
    }
  }

  lemma {:induction false} UnhexEncode(ts: seq<Token>)
    requires Legal(ts) && forall t | t in ts :: !t.Soft?
    ensures Unhex(Encode(ts)) == Bytes(ts)
  {
    if ts != [] {
      UnhexEncode(ts[1..]);
      UnhexToken(ts[0], Encode(ts[1..]));
    }
  }

  lemma {:induction false} UnfoldedTokens(ts: seq<Token>)
    ensures forall t | t in Unfolded(ts) :: t in ts && !t.Soft?
  {
    if ts != [] {
      UnfoldedTokens(if Swallows(ts, 0) then ts[2..] else ts[1..]);
    }
  }

  lemma {:induction false} UnfoldedBytes(ts: seq<Token>)
    ensures |Bytes(Unfolded(ts))| <= |Bytes(ts)|
    ensures (forall k :: !Swallows(ts, k)) ==> Bytes(Unfolded(ts)) == Bytes(ts)
    ensures (exists k :: Swallows(ts, k)) ==> |Bytes(Unfolded(ts))| < |Bytes(ts)|
  {
    if ts != [] {
      if Swallows(ts, 0) {
        UnfoldedBytes(ts[2..]);
        assert ts[1..][1..] == ts[2..];
      } else {
        var rest := ts[1..];
        UnfoldedBytes(rest);
        if k :| Swallows(ts, k) {
          var p := k - 1;
          assert Swallows(rest, p);
        } else {
          forall k ensures !Swallows(rest, k) {
            assert !Swallows(ts, k + 1);
          }
        }
      }
    }
  }

  /** Decoding gives back the bytes exactly when no bare-CR soft break stands before a literal line feed. */
  lemma DecodesExactlyWhen(ts: seq<Token>)
    requires Legal(ts)
    ensures Unhex(Unfold(Encode(ts))) == Bytes(ts) <==> forall k :: !Swallows(ts, k)
  {
    UnfoldEncode(ts);
    UnfoldedTokens(ts);
    UnhexEncode(Unfolded(ts));
    UnfoldedBytes(ts);
  }

  /** With the CRLF soft breaks of the standard, every encoding of a byte string decodes to it. */
  lemma StandardEncodingsDecode(ts: seq<Token>)
    requires Legal(ts) && forall t | t in ts :: t.Soft? ==> t.ending.CrLf?
    ensures Unhex(Unfold(Encode(ts))) == Bytes(ts)
  {
    forall k ensures !Swallows(ts, k) {
      assert 0 <= k < |ts| ==> ts[k] in ts;
    }
    DecodesExactlyWhen(ts);
  }

  // What is not an escape stays, a stray equals sign included.

  predicate HexText(b: Byte) {
    b as char in "0123456789ABCDEFabcdef"
  }

  predicate SoftAt(s: seq<Byte>, i: int) {
    0 <= i < |s| - 1 && s[i] == 61 && (s[i + 1] == 10 || s[i + 1] == 13)
  }

  predicate HexAt(s: seq<Byte>, i: int) {
    0 <= i < |s| - 2 && s[i] == 61 && HexText(s[i + 1]) && HexText(s[i + 2])
  }

  ghost predicate HasSoft(s: seq<Byte>) {
    exists i :: SoftAt(s, i)
  }

  ghost predicate HasHex(s: seq<Byte>) {
    exists i :: HexAt(s, i)
  }

  lemma SoftAtNext(s: seq<Byte>, i: int)
    requires s != []
    ensures SoftAt(s[1..], i) <==> i >= 0 && SoftAt(s, i + 1)
  {
  }

  lemma SoftFirst(s: seq<Byte>)
    requires s != []
    ensures HasSoft(s) <==> SoftAt(s, 0) || HasSoft(s[1..])
  {
    if i :| SoftAt(s, i) && i > 0 {
      SoftAtNext(s, i - 1);
    }
    if i :| SoftAt(s[1..], i) {
      SoftAtNext(s, i);
    }
  }

  lemma HexAtNext(s: seq<Byte>, i: int)
    requires s != []
    ensures HexAt(s[1..], i) <==> i >= 0 && HexAt(s, i + 1)
  {
  }

  lemma HexFirst(s: seq<Byte>)
    requires s != []
    ensures HasHex(s) <==> HexAt(s, 0) || HasHex(s[1..])
  {
    if i :| HexAt(s, i) && i > 0 {
      HexAtNext(s, i - 1);
    }
    if i :| HexAt(s[1..], i) {
      HexAtNext(s, i);
    }
  }

  lemma {:induction false} UnfoldShortens(s: seq<Byte>)
    ensures |Unfold(s)| <= |s|
    ensures if HasSoft(s) then |Unfold(s)| < |s| else Unfold(s) == s
  {
    if s != [] {
      SoftFirst(s);
      if |s| > 2 && s[0] == EQUALS && s[1] == CR && s[2] == LF {
        UnfoldShortens(s[3..]);
      } else if |s| > 1 && s[0] == EQUALS && (s[1] == LF || s[1] == CR) {
        UnfoldShortens(s[2..]);
      } else {
        UnfoldShortens(s[1..]);
      }
    }
  }

  lemma PairIs(u: seq<Byte>)
    ensures AtPair(u, 0) <==> HexAt(u, 0)
  {
  }

  lemma {:induction false} UnhexShortens(u: seq<Byte>)
    ensures |Unhex(u)| <= |u|
    ensures if HasHex(u) then |Unhex(u)| < |u| else Unhex(u) == u
  {
    if u != [] {
      HexFirst(u);
      PairIs(u);
      UnhexShortens(if AtPair(u, 0) then u[3..] else u[1..]);
    }
  }

  /** Decoding changes exactly the text that has an equals sign before a line ending or before two hex digits;
      any other equals sign is kept. */
  lemma {:induction false} UnchangedExactlyWhen(s: seq<Byte>)
    ensures Unhex(Unfold(s)) == s <==> forall i :: !SoftAt(s, i) && !HexAt(s, i)
  {
    UnfoldShortens(s);
    UnhexShortens(Unfold(s));
    assert HasSoft(s) || HasHex(s) <==> exists i :: SoftAt(s, i) || HexAt(s, i);
  }
}
