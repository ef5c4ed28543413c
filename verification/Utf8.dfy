/** The table-driven UTF-8 validator (external/IXWebSocket/ixwebsocket/IXUtf8Validator.h:46-176),
    against the grammar of section 4 of RFC 3629 and the decoding of its section 3.
 */
module Utf8 {

  type Byte = b: nat | b < 256

  const ACCEPT: nat := 0
  const REJECT: nat := 1
  const WORD: nat := 0x1_0000_0000

  // ---------------------------------------------------------------- the grammar

  predicate Tail(b: Byte) { 0x80 <= b <= 0xBF }

  /** UTF8-char of RFC 3629: UTF8-1 to UTF8-4. */
  predicate WellFormed(c: seq<Byte>) {
    || (|c| == 1 && c[0] <= 0x7F)
    || (|c| == 2 && 0xC2 <= c[0] <= 0xDF && Tail(c[1]))
    || (|c| == 3 && c[0] == 0xE0 && 0xA0 <= c[1] <= 0xBF && Tail(c[2]))
    || (|c| == 3 && (0xE1 <= c[0] <= 0xEC || 0xEE <= c[0] <= 0xEF) && Tail(c[1]) && Tail(c[2]))
    || (|c| == 3 && c[0] == 0xED && 0x80 <= c[1] <= 0x9F && Tail(c[2]))
    || (|c| == 4 && c[0] == 0xF0 && 0x90 <= c[1] <= 0xBF && Tail(c[2]) && Tail(c[3]))
    || (|c| == 4 && 0xF1 <= c[0] <= 0xF3 && Tail(c[1]) && Tail(c[2]) && Tail(c[3]))
    || (|c| == 4 && c[0] == 0xF4 && 0x80 <= c[1] <= 0x8F && Tail(c[2]) && Tail(c[3]))
  }

  /** The bits of an octet without its marker. */
  function Bits(b: nat, marker: nat): nat
    requires marker <= b
  {
    b - marker
  }

  /** The character number a well-formed sequence encodes. */
  function Scalar(c: seq<Byte>): nat
    requires WellFormed(c)
  {
    if |c| == 1 then c[0]
    else if |c| == 2 then Bits(c[0], 0xC0) * 64 + Bits(c[1], 0x80)
    else if |c| == 3 then Bits(c[0], 0xE0) * 4096 + Bits(c[1], 0x80) * 64 + Bits(c[2], 0x80)
    else Bits(c[0], 0xF0) * 262144 + Bits(c[1], 0x80) * 4096 + Bits(c[2], 0x80) * 64 + Bits(c[3], 0x80)
  }

  /** Well-formed sequences encode scalar values only, no surrogates, each in its shortest form. */
  lemma ScalarsAreShortest(c: seq<Byte>)
    requires WellFormed(c)
    ensures Scalar(c) <= 0x10_FFFF && !(0xD800 <= Scalar(c) <= 0xDFFF)
    ensures |c| == if Scalar(c) < 0x80 then 1 else if Scalar(c) < 0x800 then 2 else if Scalar(c) < 0x1_0000 then 3 else 4
  {
    if |c| == 3 && c[0] != 0xE0 && c[0] != 0xED {
      assert c[0] <= 0xEC || c[0] >= 0xEE;
    }
  }

  function Concat(chars: seq<seq<Byte>>): seq<Byte> {
    if chars == [] then [] else chars[0] + Concat(chars[1..])
  }

  predicate AllWellFormed(chars: seq<seq<Byte>>) {
    forall i | 0 <= i < |chars| :: WellFormed(chars[i])
  }

  ghost predicate IsUtf8(s: seq<Byte>) {
    exists chars :: AllWellFormed(chars) && Concat(chars) == s
  }

  // ---------------------------------------------------------------- the table

  /** The first 256 entries: the class of a byte. */
  function Class(b: Byte): nat {
    if b <= 0x7F then 0
    else if b <= 0x8F then 1
    else if b <= 0x9F then 9
    else if b <= 0xBF then 7
    else if b <= 0xC1 then 8
    else if b <= 0xDF then 2
    else if b == 0xE0 then 10
    else if b == 0xED then 4
    else if b <= 0xEF then 3
    else if b == 0xF0 then 11
    else if b <= 0xF3 then 6
    else if b == 0xF4 then 5
    else 8
  }

  /** The row of state 0. */
  function FirstRow(class_: nat): nat {
    match class_
    case 0 => 0
    case 2 => 2
    case 3 => 3
    case 4 => 5
    case 5 => 8
    case 6 => 7
    case 10 => 4
    case 11 => 6
    case _ => 1
  }

  /** The transitions: the entry at 256 + 16 * state + class. */
  function Transition(state: nat, class_: nat): nat {
    match state
    case 0 => FirstRow(class_)
    case 2 => if class_ in {1, 7, 9} then 0 else 1
    case 3 => if class_ in {1, 7, 9} then 2 else 1
    case 4 => if class_ == 7 then 2 else 1
    case 5 => if class_ in {1, 9} then 2 else 1
    case 6 => if class_ in {7, 9} then 3 else 1
    case 7 => if class_ in {1, 7, 9} then 3 else 1
    case 8 => if class_ == 1 then 3 else 1
    case _ => 1
  }

  /** 0xff >> class, as a modulus. */
  function MaskModulus(class_: nat): nat {
    match class_
    case 0 => 256
    case 1 => 128
    case 2 => 64
    case 3 => 32
    case 4 => 16
    case 5 => 8
    case 6 => 4
    case 7 => 2
    case _ => 1
  }

  datatype Decoder = Decoder(state: nat, codePoint: nat)

  const START := Decoder(ACCEPT, 0)

  /** decodeNextByte, on 32-bit words. */
  function Next(d: Decoder, b: Byte): Decoder {
    Decoder(Transition(d.state, Class(b)),
            if d.state != ACCEPT then d.codePoint * 64 % WORD + b % 64 else b % MaskModulus(Class(b)))
  }

  /** All bytes, without stopping. */
  function Fed(d: Decoder, s: seq<Byte>): Decoder
    decreases |s|
  {
    if s == [] then d else Fed(Next(d, s[0]), s[1..])
  }

  /** Up to and including the first byte that rejects. */
  function Decoded(d: Decoder, s: seq<Byte>): Decoder
    decreases |s|
  {
    if s == [] then d
    else if Next(d, s[0]).state == REJECT then Next(d, s[0])
    else Decoded(Next(d, s[0]), s[1..])
  }

  predicate DecodesOk(d: Decoder, s: seq<Byte>)
    decreases |s|
  {
    s == [] || (Next(d, s[0]).state != REJECT && DecodesOk(Next(d, s[0]), s[1..]))
  }

  // ---------------------------------------------------------------- the validator

  class Utf8Validator {
    var state: nat
    var codePoint: nat

    ghost function View(): Decoder
      reads this
    {
      Decoder(state, codePoint)
    }

    constructor ()
      ensures View() == START
    {
      state, codePoint := ACCEPT, 0;
    }

    method DecodeNextByte(b: Byte) returns (result: nat)
      modifies this
      ensures View() == Next(old(View()), b) && result == state
    {
      var class_ := Class(b);
      codePoint := if state != ACCEPT then codePoint * 64 % WORD + b % 64 else b % MaskModulus(class_);
      state := Transition(state, class_);
      return state;
    }

    method Consume(b: Byte) returns (ok: bool)
      modifies this
      ensures View() == Next(old(View()), b) && (ok <==> state != REJECT)
    {
      var result := DecodeNextByte(b);
      return result != REJECT;
    }

    method Decode(s: seq<Byte>) returns (ok: bool)
      modifies this
      ensures View() == Decoded(old(View()), s) && (ok <==> DecodesOk(old(View()), s))
    {
      for i := 0 to |s|
        invariant Decoded(old(View()), s) == Decoded(View(), s[i..])
        invariant DecodesOk(old(View()), s) <==> DecodesOk(View(), s[i..])
      {
        assert s[i..][0] == s[i] && s[i..][1..] == s[i + 1..];
        var result := DecodeNextByte(s[i]);
        if result == REJECT {
          return false;
        }
      }
      return true;
    }

    method Complete() returns (complete: bool)
      ensures complete <==> state == ACCEPT
    {
      return state == ACCEPT;
    }

    method Reset()
      modifies this
      ensures View() == START
    {
      state, codePoint := ACCEPT, 0;
    }
  }

  /** Accepts exactly the strings of the grammar. */
  method ValidateUtf8(s: seq<Byte>) returns (valid: bool)
    ensures valid <==> IsUtf8(s)
  {
    var v := new Utf8Validator();
    var ok := v.Decode(s);
    DecodedIsFed(START, s);
    AcceptsExactlyUtf8(s);
    if !ok {
      return false;
    }
    valid := v.Complete();
  }

  // ---------------------------------------------------------------- stopping and chunks

  lemma {:induction false} FedConcat(d: Decoder, a: seq<Byte>, b: seq<Byte>)
    ensures Fed(d, a + b) == Fed(Fed(d, a), b)
    decreases |a|
  {
    if a == [] {
      assert a + b == b;
    } else {
      assert (a + b)[1..] == a[1..] + b;
      FedConcat(Next(d, a[0]), a[1..], b);
    }
  }

  lemma {:induction false} RejectIsFinal(d: Decoder, s: seq<Byte>)
    requires d.state == REJECT
    ensures Fed(d, s).state == REJECT && Decoded(d, s).state == REJECT
    decreases |s|
  {
    if s != [] { RejectIsFinal(Next(d, s[0]), s[1..]); }
  }

  /** Stopping at a rejecting byte does not change the verdict. */
  lemma {:induction false} DecodedIsFed(d: Decoder, s: seq<Byte>)
    ensures Decoded(d, s).state == Fed(d, s).state
    ensures DecodesOk(d, s) ==> Decoded(d, s) == Fed(d, s)
    ensures d.state != REJECT ==> (DecodesOk(d, s) <==> Fed(d, s).state != REJECT)
    decreases |s|
  {
    if s != [] {
      if Next(d, s[0]).state == REJECT {
        RejectIsFinal(Next(d, s[0]), s[1..]);
      } else {
        DecodedIsFed(Next(d, s[0]), s[1..]);
      }
    }
  }

  /** Decoding in two chunks gives the verdict and the state of decoding them joined, and, unless
      something rejects, the same code point. */
  lemma {:induction false} ChunksJoin(d: Decoder, a: seq<Byte>, b: seq<Byte>)
    ensures DecodesOk(d, a + b) <==> DecodesOk(d, a) && DecodesOk(Decoded(d, a), b)
    ensures Decoded(d, a + b).state == Decoded(Decoded(d, a), b).state
    ensures DecodesOk(d, a) ==> Decoded(d, a + b) == Decoded(Decoded(d, a), b)
    decreases |a|
  {
    if a == [] {
      assert a + b == b;
    } else {
      assert (a + b)[0] == a[0] && (a + b)[1..] == a[1..] + b;
      if Next(d, a[0]).state == REJECT {
        RejectIsFinal(Next(d, a[0]), b);
      } else {
        ChunksJoin(Next(d, a[0]), a[1..], b);
      }
    }
  }

  // ---------------------------------------------------------------- well-formed strings are accepted

  /** The first octet sets the code point to its bits without the marker. */
  lemma LeadStep(d: Decoder, b: Byte)
    requires d.state == ACCEPT
    ensures b <= 0x7F ==> Next(d, b) == Decoder(ACCEPT, b)
    ensures 0xC2 <= b <= 0xDF ==> Next(d, b) == Decoder(2, Bits(b, 0xC0))
    ensures 0xE0 <= b <= 0xEF ==> Next(d, b) == Decoder(if b == 0xE0 then 4 else if b == 0xED then 5 else 3, Bits(b, 0xE0))
    ensures 0xF0 <= b <= 0xF4 ==> Next(d, b) == Decoder(if b == 0xF0 then 6 else if b == 0xF4 then 8 else 7, Bits(b, 0xF0))
  {
  }

  /** A later octet shifts its six bits in; nothing is lost to the 32-bit word. */
  lemma TailStep(d: Decoder, b: Byte)
    requires d.state != ACCEPT && d.codePoint < WORD / 64 && Tail(b)
    ensures Next(d, b) == Decoder(Transition(d.state, Class(b)), d.codePoint * 64 + Bits(b, 0x80))
  {
  }

  /** From any accepting decoder a well-formed sequence leads to acceptance, not earlier, and to its
      character number. */
  lemma CharIsAccepted(d: Decoder, c: seq<Byte>)
    requires d.state == ACCEPT && WellFormed(c)
    ensures Fed(d, c) == Decoder(ACCEPT, Scalar(c))
    ensures forall k | 0 < k < |c| :: Fed(d, c[..k]).state != ACCEPT
  {
    LeadStep(d, c[0]);
    var d1 := Next(d, c[0]);
    if |c| == 1 {
      One(d, c);
    } else {
      TailStep(d1, c[1]);
      One(d, c[..1]);
      if |c| == 2 { Two(d, c); } else { LongChar(d, c, d1, Next(d1, c[1])); }
    }
  }

  lemma LongChar(d: Decoder, c: seq<Byte>, d1: Decoder, d2: Decoder)
    requires d.state == ACCEPT && WellFormed(c) && |c| > 2 && d1 == Next(d, c[0]) && d2 == Next(d1, c[1])
    requires d1.state != ACCEPT && Fed(d, c[..1]) == d1
    requires d1.state == if c[0] == 0xE0 then 4 else if c[0] == 0xED then 5 else if c[0] < 0xF0 then 3
                         else if c[0] == 0xF0 then 6 else if c[0] == 0xF4 then 8 else 7
    requires d1.codePoint == Bits(c[0], if |c| == 3 then 0xE0 else 0xF0)
    requires d2 == Decoder(Transition(d1.state, Class(c[1])), d1.codePoint * 64 + Bits(c[1], 0x80))
    ensures Fed(d, c) == Decoder(ACCEPT, Scalar(c))
    ensures forall k | 0 < k < |c| :: Fed(d, c[..k]).state != ACCEPT
  {
    Two(d, c[..2]);
    assert d2.state == if |c| == 3 then 2 else 3;
    TailStep(d2, c[2]);
    if |c| == 3 {
      Three(d, c);
      forall k | 0 < k < |c| ensures Fed(d, c[..k]).state != ACCEPT { assert k == 1 || k == 2; }
    } else {
      Three(d, c[..3]);
      TailStep(Next(d2, c[2]), c[3]);
      Four(d, c);
      forall k | 0 < k < |c| ensures Fed(d, c[..k]).state != ACCEPT { assert k == 1 || k == 2 || k == 3; }
    }
  }

  lemma One(d: Decoder, c: seq<Byte>)
    requires |c| == 1
    ensures Fed(d, c) == Next(d, c[0])
  {
    assert Fed(Next(d, c[0]), c[1..]) == Next(d, c[0]);
  }

  lemma Two(d: Decoder, c: seq<Byte>)
    requires |c| == 2
    ensures Fed(d, c) == Next(Next(d, c[0]), c[1])
  {
    One(Next(d, c[0]), c[1..]);
  }

  lemma Three(d: Decoder, c: seq<Byte>)
    requires |c| == 3
    ensures Fed(d, c) == Next(Next(Next(d, c[0]), c[1]), c[2])
  {
    Two(Next(d, c[0]), c[1..]);
  }

  lemma Four(d: Decoder, c: seq<Byte>)
    requires |c| == 4
    ensures Fed(d, c) == Next(Next(Next(Next(d, c[0]), c[1]), c[2]), c[3])
  {
    Three(Next(d, c[0]), c[1..]);
  }

  lemma {:induction false} CharsAreAccepted(d: Decoder, chars: seq<seq<Byte>>)
    requires d.state == ACCEPT && AllWellFormed(chars)
    ensures Fed(d, Concat(chars)).state == ACCEPT
    ensures chars != [] ==> Fed(d, Concat(chars)).codePoint == Scalar(chars[|chars| - 1])
    decreases |chars|
  {
    if chars != [] {
      CharIsAccepted(d, chars[0]);
      FedConcat(d, chars[0], Concat(chars[1..]));
      CharsAreAccepted(Fed(d, chars[0]), chars[1..]);
    }
  }

  // ---------------------------------------------------------------- accepted strings are well-formed

  /** An unfinished sequence that leads to `state`. */
  predicate Partial(state: nat, p: seq<Byte>) {
    match state
    case 0 => p == []
    case 2 =>
      || (|p| == 1 && 0xC2 <= p[0] <= 0xDF)
      || (|p| == 2 && WellFormed(p + [0x80]))
      || (|p| == 3 && WellFormed(p + [0x80]))
    case 3 =>
      || (|p| == 1 && (0xE1 <= p[0] <= 0xEC || 0xEE <= p[0] <= 0xEF))
      || (|p| == 2 && WellFormed(p + [0x80, 0x80]))
    case 4 => p == [0xE0]
    case 5 => p == [0xED]
    case 6 => p == [0xF0]
    case 7 => |p| == 1 && 0xF1 <= p[0] <= 0xF3
    case 8 => p == [0xF4]
    case _ => false
  }

  lemma PartialGrows(state: nat, p: seq<Byte>, b: Byte)
    requires Partial(state, p) && Transition(state, Class(b)) != REJECT
    ensures if Transition(state, Class(b)) == ACCEPT then WellFormed(p + [b]) else Partial(Transition(state, Class(b)), p + [b])
  {
    var q := p + [b];
    assert forall i | 0 <= i < |p| :: q[i] == p[i];
    assert q[|p|] == b;
    if |p| == 1 && state != 2 {
      assert (q + [0x80])[..2] == q && (q + [0x80, 0x80])[..2] == q;
    } else if |p| == 2 && state == 3 {
      assert (p + [0x80, 0x80])[..2] == p && (q + [0x80])[..3] == q;
    } else if state == 2 && |p| >= 2 {
      assert (p + [0x80])[..|p|] == p;
    }
  }

  lemma {:induction false} ConcatAppend(chars: seq<seq<Byte>>, c: seq<Byte>)
    ensures Concat(chars + [c]) == Concat(chars) + c
  {
    if chars == [] {
      assert [c][1..] == [] && Concat([]) == [];
      assert chars + [c] == [c];
    } else {
      assert (chars + [c])[1..] == chars[1..] + [c];
      ConcatAppend(chars[1..], c);
    }
  }

  /** A string that is not rejected is a run of well-formed sequences and an unfinished one. */
  lemma {:induction false} Parse(s: seq<Byte>) returns (chars: seq<seq<Byte>>, rest: seq<Byte>)
    requires Fed(START, s).state != REJECT
    ensures AllWellFormed(chars) && s == Concat(chars) + rest && Partial(Fed(START, s).state, rest)
    decreases |s|
  {
    if s == [] {
      return [], [];
    }
    var front, b := s[..|s| - 1], s[|s| - 1];
    assert s == front + [b];
    FedConcat(START, front, [b]);
    One(Fed(START, front), [b]);
    var d := Fed(START, front);
    chars, rest := Parse(front);
    PartialGrows(d.state, rest, b);
    if Fed(START, s).state == ACCEPT {
      ConcatAppend(chars, rest + [b]);
      chars, rest := chars + [rest + [b]], [];
    } else {
      rest := rest + [b];
    }
  }

  /** The automaton accepts exactly the concatenations of well-formed sequences. */
  lemma AcceptsExactlyUtf8(s: seq<Byte>)
    ensures Fed(START, s).state == ACCEPT <==> IsUtf8(s)
  {
    if Fed(START, s).state == ACCEPT {
      var chars, rest := Parse(s);
      assert Concat(chars) == s;
    }
    if IsUtf8(s) {
      var chars :| AllWellFormed(chars) && Concat(chars) == s;
      CharsAreAccepted(START, chars);
    }
  }

  /** At the end of each character the code point is that character's number, whatever came before. */
  lemma CodePointIsTheScalar(chars: seq<seq<Byte>>, n: nat)
    requires AllWellFormed(chars) && 0 < n <= |chars|
    ensures Fed(START, Concat(chars[..n])) == Decoder(ACCEPT, Scalar(chars[n - 1]))
  {
    CharsAreAccepted(START, chars[..n]);
  }

  /** No well-formed sequence is a proper prefix of another. */
  lemma PrefixFree(c: seq<Byte>, c': seq<Byte>)
    requires WellFormed(c) && WellFormed(c') && |c| <= |c'| && c'[..|c|] == c
    ensures c == c'
  {
    CharIsAccepted(START, c);
    CharIsAccepted(START, c');
    assert c'[..|c'|] == c';
  }

  lemma SomethingIsNotEmpty(chars: seq<seq<Byte>>)
    requires AllWellFormed(chars) && chars != []
    ensures Concat(chars) != []
  {
    assert WellFormed(chars[0]);
  }

  /** A string has at most one decomposition, so the characters found are the characters meant. */
  lemma {:induction false} Unambiguous(chars: seq<seq<Byte>>, chars': seq<seq<Byte>>)
    requires AllWellFormed(chars) && AllWellFormed(chars') && Concat(chars) == Concat(chars')
    ensures chars == chars'
    decreases |chars|
  {
    if chars != [] { SomethingIsNotEmpty(chars); }
    if chars' != [] { SomethingIsNotEmpty(chars'); }
    if chars != [] && chars' != [] {
      var s, c, c' := Concat(chars), chars[0], chars'[0];
      assert s[..|c|] == c && s[..|c'|] == c';
      if |c| <= |c'| {
        assert c'[..|c|] == c;
        PrefixFree(c, c');
      } else {
        assert c[..|c'|] == c';
        PrefixFree(c', c);
      }
      assert Concat(chars[1..]) == s[|c|..] && Concat(chars'[1..]) == s[|c|..];
      Unambiguous(chars[1..], chars'[1..]);
      assert chars == [chars[0]] + chars[1..] && chars' == [chars'[0]] + chars'[1..];
    }
  }
}
