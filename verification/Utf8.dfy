/** The comment validator: a UTF-8 decoder over bytes and the rule that a comment must contain
    something other than whitespace. The encoding is the table of section 3 of RFC 3629. */
module Utf8 {
  import opened Wrappers

  type Bytes = seq<int>

  predicate IsBytes(s: Bytes) { forall i :: 0 <= i < |s| ==> 0 <= s[i] <= 0xFF }

  // ---------- the encoding ----------

  predicate Scalar(c: int) { 0 <= c <= 0x10FFFF && !(0xD800 <= c <= 0xDFFF) }

  predicate Scalars(cs: seq<int>) { forall i :: 0 <= i < |cs| ==> Scalar(cs[i]) }

  function EncodeOne(c: int): (s: Bytes)
    requires Scalar(c)
    ensures 1 <= |s| <= 4
  {
    if c <= 0x7F then [c]
    else if c <= 0x7FF then [0xC0 + c / 64, 0x80 + c % 64]
    else if c <= 0xFFFF then [0xE0 + c / 4096, 0x80 + c / 64 % 64, 0x80 + c % 64]
    else [0xF0 + c / 262144, 0x80 + c / 4096 % 64, 0x80 + c / 64 % 64, 0x80 + c % 64]
  }

  function Encode(cs: seq<int>): Bytes
    requires Scalars(cs)
  {
    if cs == [] then [] else EncodeOne(cs[0]) + Encode(cs[1..])
  }

  // ---------- the decoder ----------

  /** What the lead byte announces: continuation count, its own bits, least value for that length. */
  function Lead(b: int): Option<(nat, int, int)> {
    if 0xC2 <= b <= 0xDF then Some((1, b % 32, 0x80))
    else if 0xE0 <= b <= 0xEF then Some((2, b % 16, 0x800))
    else if 0xF0 <= b <= 0xF4 then Some((3, b % 8, 0x10000))
    else None
  }

  /** Six bits from each of n continuation bytes. */
  function Continued(s: Bytes, n: nat, value: int): Option<int>
    requires n <= |s|
    decreases n
  {
    if n == 0 then Some(value)
    else if s[0] / 64 != 2 then None
    else Continued(s[1..], n - 1, value * 64 + s[0] % 64)
  }

  /** nextCodePoint on a non-empty rest: the scalar and its length, or failure. */
  function Next(s: Bytes): (r: Option<(int, nat)>)
    requires |s| > 0
    ensures r.Some? ==> 0 < r.value.1 <= |s|
  {
    if s[0] <= 0x7F then Some((s[0], 1))
    else match Lead(s[0])
      case None => None
      case Some((n, bits, least)) =>
        if |s| - 1 < n then None
        else match Continued(s[1..], n, bits)
          case None => None
          case Some(v) => if v < least || !Scalar(v) then None else Some((v, n + 1))
  }

  function Decode(s: Bytes): Option<seq<int>>
    decreases |s|
  {
    if s == [] then Some([])
    else match Next(s)
      case None => None
      case Some((c, n)) =>
        match Decode(s[n..])
        case None => None
        case Some(cs) => Some([c] + cs)
  }

  // ---------- one scalar ----------

  /** Six-bit digits of a number. */
  lemma Digits(c: int, d0: int, d1: int, d2: int, d3: int)
    requires c == d0 * 262144 + d1 * 4096 + d2 * 64 + d3 && 0 <= d0 && 0 <= d1 < 64 && 0 <= d2 < 64 && 0 <= d3 < 64
    ensures c % 64 == d3 && c / 64 % 64 == d2 && c / 4096 % 64 == d1 && c / 262144 == d0
    ensures c / 4096 == d0 * 64 + d1 && c / 64 == d0 * 4096 + d1 * 64 + d2
  {
  }

  lemma Continuation(b: int)
    requires b / 64 == 2
    ensures b == 0x80 + b % 64 && 0 <= b % 64 < 64
  {
  }

  lemma Sound2(b0: int, b1: int, c: int)
    requires 0xC2 <= b0 <= 0xDF && b1 / 64 == 2 && c == (b0 - 0xC0) * 64 + b1 % 64
    ensures Scalar(c) && [b0, b1] == EncodeOne(c)
  {
    Continuation(b1);
    Digits(c, 0, 0, b0 - 0xC0, b1 % 64);
  }

  lemma Sound3(b0: int, b1: int, b2: int, c: int)
    requires 0xE0 <= b0 <= 0xEF && b1 / 64 == 2 && b2 / 64 == 2
    requires c == ((b0 - 0xE0) * 64 + b1 % 64) * 64 + b2 % 64 && Scalar(c) && c >= 0x800
    ensures [b0, b1, b2] == EncodeOne(c)
  {
    Continuation(b1);
    Continuation(b2);
    Digits(c, 0, b0 - 0xE0, b1 % 64, b2 % 64);
  }

  lemma Sound4(b0: int, b1: int, b2: int, b3: int, c: int)
    requires 0xF0 <= b0 <= 0xF4 && b1 / 64 == 2 && b2 / 64 == 2 && b3 / 64 == 2
    requires c == (((b0 - 0xF0) * 64 + b1 % 64) * 64 + b2 % 64) * 64 + b3 % 64 && Scalar(c) && c >= 0x10000
    ensures [b0, b1, b2, b3] == EncodeOne(c)
  {
    Continuation(b1);
    Continuation(b2);
    Continuation(b3);
    Digits(c, b0 - 0xF0, b1 % 64, b2 % 64, b3 % 64);
  }

  /** Accepting: the bytes read are the encoding of the scalar returned. */
  lemma NextSound(s: Bytes)
    requires |s| > 0 && IsBytes(s) && Next(s).Some?
    ensures var (c, n) := Next(s).value; Scalar(c) && s[..n] == EncodeOne(c)
  {
    var (c, n) := Next(s).value;
    Marked(s[0], 0);
    if s[0] > 0x7F {
      Unfolded(s[1..], n - 1, Lead(s[0]).value.1);
      assert forall i :: 0 <= i < n - 1 ==> s[1..][i] == s[i + 1];
      NextParts(s);
      hide Next, Continued, EncodeOne;
      if n == 2 {
        Sound2(s[0], s[1], c);
        assert s[..2] == [s[0], s[1]];
      } else if n == 3 {
        Sound3(s[0], s[1], s[2], c);
        assert s[..3] == [s[0], s[1], s[2]];
      } else {
        Sound4(s[0], s[1], s[2], s[3], c);
        assert s[..4] == [s[0], s[1], s[2], s[3]];
      }
    }
  }

  lemma NextParts(s: Bytes)
    requires |s| > 0 && Next(s).Some? && s[0] > 0x7F
    ensures var (c, n) := Next(s).value;
            && Lead(s[0]).Some? && n == Lead(s[0]).value.0 + 1
            && Continued(s[1..], n - 1, Lead(s[0]).value.1) == Some(c)
            && c >= Lead(s[0]).value.2 && Scalar(c)
  {
    hide Continued;
  }

  /** Continued for one to three bytes, written out. */
  lemma Unfolded(s: Bytes, n: nat, v: int)
    requires 1 <= n <= 3 && n <= |s|
    ensures Continued(s, n, v).Some? <==> forall i :: 0 <= i < n ==> s[i] / 64 == 2
    ensures Continued(s, n, v).Some? ==>
              Continued(s, n, v).value ==
                if n == 1 then v * 64 + s[0] % 64
                else if n == 2 then (v * 64 + s[0] % 64) * 64 + s[1] % 64
                else ((v * 64 + s[0] % 64) * 64 + s[1] % 64) * 64 + s[2] % 64
  {
    if n > 1 {
      assert s[1..][1..] == s[2..];
      var w := v * 64 + s[0] % 64;
      assert Continued(s[1..], n - 1, w) ==
        if s[1] / 64 != 2 then None else Continued(s[2..], n - 2, w * 64 + s[1] % 64);
      if n > 2 {
        var x := w * 64 + s[1] % 64;
        assert Continued(s[2..], 1, x) == if s[2] / 64 != 2 then None else Some(x * 64 + s[2] % 64);
      }
    }
  }

  /** The value that the lead bits and the continuation bytes of an encoding spell. */
  function Spelled(e: Bytes): int
    requires 2 <= |e| <= 4 && Lead(e[0]).Some?
  {
    var v := Lead(e[0]).value.1 * 64 + e[1] % 64;
    if |e| == 2 then v else if |e| == 3 then v * 64 + e[2] % 64 else (v * 64 + e[2] % 64) * 64 + e[3] % 64
  }

  /** The bytes of an encoding, with their bits: lead range, continuation marks and value. */
  predicate Marks(e: Bytes, c: int) {
    && 2 <= |e| <= 4 && Lead(e[0]).Some? && Lead(e[0]).value.0 == |e| - 1 && Lead(e[0]).value.2 <= c
    && (forall i :: 1 <= i < |e| ==> e[i] / 64 == 2) && Spelled(e) == c && e[0] > 0x7F
  }

  lemma Marks2(c: int)
    requires 0x80 <= c <= 0x7FF
    ensures Marks([0xC0 + c / 64, 0x80 + c % 64], c)
  {
    Marked(0xC0 + c / 64, c % 64);
  }

  lemma Marks3(c: int)
    requires 0x800 <= c <= 0xFFFF
    ensures Marks([0xE0 + c / 4096, 0x80 + c / 64 % 64, 0x80 + c % 64], c)
  {
    SplitDigits(c);
    Marked(0xE0 + c / 4096, c / 64 % 64);
    Marked(0xE0 + c / 4096, c % 64);
  }

  lemma Marks4(c: int)
    requires 0x10000 <= c <= 0x10FFFF
    ensures Marks([0xF0 + c / 262144, 0x80 + c / 4096 % 64, 0x80 + c / 64 % 64, 0x80 + c % 64], c)
  {
    SplitDigits(c);
    Marked(0xF0 + c / 262144, c / 4096 % 64);
    Marked(0xF0 + c / 262144, c / 64 % 64);
    Marked(0xF0 + c / 262144, c % 64);
  }

  lemma EncodedBits(c: int)
    requires Scalar(c) && c > 0x7F
    ensures Marks(EncodeOne(c), c)
  {
    hide Marks;
    if c <= 0x7FF { Marks2(c); } else if c <= 0xFFFF { Marks3(c); } else { Marks4(c); }
  }

  /** A lead byte keeps its own bits, a marked byte its six. */
  lemma Marked(lead: int, d: int)
    requires 0 <= d < 64 && 0 <= lead <= 0xFF
    ensures (0x80 + d) / 64 == 2 && (0x80 + d) % 64 == d
    ensures 0xC2 <= lead <= 0xDF ==> lead % 32 == lead - 0xC0
    ensures 0xE0 <= lead <= 0xEF ==> lead % 16 == lead - 0xE0
    ensures 0xF0 <= lead <= 0xF4 ==> lead % 8 == lead - 0xF0
  {
  }

  lemma SplitDigits(c: int)
    requires c >= 0
    ensures c == c / 262144 * 262144 + c / 4096 % 64 * 4096 + c / 64 % 64 * 64 + c % 64
    ensures c / 64 == c / 4096 * 64 + c / 64 % 64 && c / 4096 == c / 262144 * 64 + c / 4096 % 64
  {
  }

  /** Complete: whatever follows it, the encoding of a scalar is read back, and no more. */
  lemma NextComplete(c: int, rest: Bytes)
    requires Scalar(c)
    ensures Next(EncodeOne(c) + rest) == Some((c, |EncodeOne(c)|))
  {
    var e := EncodeOne(c);
    var s := e + rest;
    assert s[0] == e[0];
    if c > 0x7F {
      EncodedBits(c);
      hide EncodeOne, Continued, Lead;
      assert forall i :: 0 <= i < |e| - 1 ==> s[1..][i] == e[i + 1];
      Unfolded(s[1..], |e| - 1, Lead(s[0]).value.1);
    }
  }

  // ---------- whole texts ----------

  lemma {:induction false} DecodeSound(s: Bytes)
    requires IsBytes(s) && Decode(s).Some?
    ensures Scalars(Decode(s).value) && Encode(Decode(s).value) == s
    decreases |s|
  {
    hide Next, EncodeOne;
    if s != [] {
      NextSound(s);
      var (c, n) := Next(s).value;
      DecodeSound(s[n..]);
      var cs := Decode(s[n..]).value;
      assert ([c] + cs)[1..] == cs;
    }
  }

  lemma {:induction false} DecodeComplete(cs: seq<int>)
    requires Scalars(cs)
    ensures Decode(Encode(cs)) == Some(cs)
  {
    hide Next, EncodeOne;
    if cs != [] {
      var e, rest := EncodeOne(cs[0]), Encode(cs[1..]);
      NextComplete(cs[0], rest);
      DecodeComplete(cs[1..]);
      assert (e + rest)[|e|..] == rest;
      assert [cs[0]] + cs[1..] == cs;
    }
  }

  /** The decoder accepts a byte string exactly when it is the encoding of a sequence of Unicode
      scalar values, and returns that sequence, which is the only one. */
  lemma DecodesExactlyUtf8(s: Bytes, cs: seq<int>)
    requires IsBytes(s)
    ensures Decode(s) == Some(cs) <==> Scalars(cs) && Encode(cs) == s
  {
    if Decode(s) == Some(cs) { DecodeSound(s); }
    if Scalars(cs) && Encode(cs) == s { DecodeComplete(cs); }
  }

  lemma EncodingIsUnique(cs: seq<int>, ds: seq<int>)
    requires Scalars(cs) && Scalars(ds) && Encode(cs) == Encode(ds)
    ensures cs == ds
  {
    DecodeComplete(cs);
    DecodeComplete(ds);
  }

  // ---------- the validator ----------

  /** The White_Space property of Unicode. */
  predicate Whitespace(c: int) {
    || 0x09 <= c <= 0x0D || c == 0x20 || c == 0x85 || c == 0xA0 || c == 0x1680 || 0x2000 <= c <= 0x200A
    || c == 0x2028 || c == 0x2029 || c == 0x202F || c == 0x205F || c == 0x3000
  }

  predicate HasContent(cs: seq<int>) { exists i :: 0 <= i < |cs| && !Whitespace(cs[i]) }

  /** A comment is acceptable exactly when it is UTF-8 with a scalar that is not whitespace. */
  ghost predicate NonBlankUtf8(s: Bytes) {
    exists cs :: Scalars(cs) && Encode(cs) == s && HasContent(cs)
  }

  /** Decoding one code point, with the loop over continuation bytes. */
  method NextCodePoint(text: Bytes, start: nat) returns (ok: bool, position: nat, codePoint: int)
    requires start < |text|
    ensures ok <==> Next(text[start..]).Some?
    ensures ok ==> Next(text[start..]) == Some((codePoint, position - start)) && start < position <= |text|
  {
    var lead := text[start];
    position, ok, codePoint := start + 1, false, 0;
    ghost var s := text[start..];
    if lead <= 0x7F {
      ok, codePoint := true, lead;
      return;
    }
    var count, value, minimum: nat := 0, 0, 0;
    if 0xC2 <= lead <= 0xDF {
      count, value, minimum := 1, lead % 32, 0x80;
    } else if 0xE0 <= lead <= 0xEF {
      count, value, minimum := 2, lead % 16, 0x800;
    } else if 0xF0 <= lead <= 0xF4 {
      count, value, minimum := 3, lead % 8, 0x10000;
    } else {
      return;
    }
    if |text| - position < count {
      return;
    }
    ghost var whole := Continued(s[1..], count, value);
    assert s[1..] == text[position..];
    NextByLead(s);
    hide Next, Lead, Continued;
    var index := 0;
    while index < count
      invariant 0 <= index <= count && position == start + 1 + index && position + (count - index) <= |text|
      invariant whole == Continued(text[position..], count - index, value)
    {
      var byte := text[position];
      ContinuedStep(text, position, count - index, value);
      if byte / 64 != 2 {
        return;
      }
      value := value * 64 + byte % 64;
      position, index := position + 1, index + 1;
    }
    ContinuedEnd(text[position..], value);
    if value < minimum || value > 0x10FFFF || 0xD800 <= value <= 0xDFFF {
      return;
    }
    ok, codePoint := true, value;
  }

  lemma NextByLead(s: Bytes)
    requires |s| > 0 && s[0] > 0x7F && Lead(s[0]).Some? && |s| - 1 >= Lead(s[0]).value.0
    ensures var (n, bits, least) := Lead(s[0]).value;
            Next(s) == match Continued(s[1..], n, bits)
                       case None => None
                       case Some(v) => if v < least || !Scalar(v) then None else Some((v, n + 1))
  {
    hide Continued;
  }

  lemma ContinuedStep(text: Bytes, p: nat, n: nat, value: int)
    requires n > 0 && p + n <= |text|
    ensures Continued(text[p..], n, value) ==
            if text[p] / 64 != 2 then None else Continued(text[p + 1..], n - 1, value * 64 + text[p] % 64)
  {
    assert text[p..][1..] == text[p + 1..];
  }

  lemma ContinuedEnd(s: Bytes, value: int)
    ensures Continued(s, 0, value) == Some(value)
  {
  }

  /** Decoding from the left: what is read so far, then the rest. */
  lemma DecodeStep(s: Bytes)
    requires s != []
    ensures Next(s).None? ==> Decode(s).None?
    ensures Next(s).Some? && Decode(s[Next(s).value.1..]).None? ==> Decode(s).None?
    ensures Next(s).Some? && Decode(s[Next(s).value.1..]).Some? ==>
              Decode(s) == Some([Next(s).value.0] + Decode(s[Next(s).value.1..]).value)
  {
    hide Next;
  }

  method ValidNonBlankUtf8(content: Bytes) returns (valid: bool)
    requires IsBytes(content)
    ensures valid <==> NonBlankUtf8(content)
  {
    valid := Scan(content);
    hide Next, EncodeOne, Encode, Decode, Scalars, HasContent;
    if Decode(content).Some? { DecodesExactlyUtf8(content, Decode(content).value); }
    forall cs | Scalars(cs) && Encode(cs) == content
      ensures Decode(content) == Some(cs)
    {
      DecodesExactlyUtf8(content, cs);
    }
  }

  /** The scanning loop of validNonBlankUtf8. */
  method Scan(content: Bytes) returns (valid: bool)
    ensures valid <==> Decode(content).Some? && HasContent(Decode(content).value)
  {
    hide Next;
    var hasContent, position := false, 0;
    ghost var read: seq<int> := [];
    assert content[0..] == content;
    assert Decode(content).Some? ==> [] + Decode(content).value == Decode(content).value;
    while position < |content|
      invariant 0 <= position <= |content|
      invariant hasContent <==> HasContent(read)
      invariant Decode(content) == Prepended(read, Decode(content[position..]))
      decreases |content| - position
    {
      DecodeStep(content[position..]);
      ghost var s := content[position..];
      var ok, next, codePoint := NextCodePoint(content, position);
      if !ok {
        return false;
      }
      assert s[next - position..] == content[next..];
      PrependedStep(read, codePoint, Decode(content[next..]));
      HasContentSnoc(read, codePoint);
      hide Decode, Prepended, HasContent;
      read := read + [codePoint];
      if !Whitespace(codePoint) {
        hasContent := true;
      }
      position := next;
    }
    assert content[position..] == [];
    assert read + [] == read;
    return hasContent;
  }

  function Prepended(cs: seq<int>, rest: Option<seq<int>>): Option<seq<int>> {
    match rest case None => None case Some(ds) => Some(cs + ds)
  }

  lemma PrependedStep(cs: seq<int>, c: int, rest: Option<seq<int>>)
    ensures Prepended(cs, match rest case None => None case Some(ds) => Some([c] + ds)) == Prepended(cs + [c], rest)
  {
    if rest.Some? { assert cs + ([c] + rest.value) == cs + [c] + rest.value; }
  }

  lemma HasContentSnoc(cs: seq<int>, c: int)
    ensures HasContent(cs + [c]) <==> HasContent(cs) || !Whitespace(c)
  {
    var ds := cs + [c];
    assert ds[|cs|] == c;
    assert forall i :: 0 <= i < |cs| ==> ds[i] == cs[i];
    if HasContent(cs) {
      var i :| 0 <= i < |cs| && !Whitespace(cs[i]);
      assert !Whitespace(ds[i]);
    }
    hide Whitespace;
  }
}
