/**
  * String literals that contain lone surrogates arrive as text in which a lone surrogate is written as U+FFFD and four
  * lowercase hexadecimal digits, and U+FFFD itself as U+FFFD followed by "fffd". Decoding yields the 16-bit code units
  * of the String type (section 6.1.4 of ECMA-262).
  */
module Surrogates {
  import opened Prelude

  type Scalar = c: int | 0 <= c < 0xD800 || 0xE000 <= c <= 0x10FFFF witness 0
  type Text = seq<Scalar>
  type Unit = u: int | 0 <= u <= 0xFFFF witness 0

  const REPLACEMENT: Scalar := 0xFFFD

  // ----- UTF-16 -----

  predicate IsHigh(u: Unit)
  {
    0xD800 <= u <= 0xDBFF
  }

  predicate IsLow(u: Unit)
  {
    0xDC00 <= u <= 0xDFFF
  }

  function EncodeUtf16(c: Scalar): (units: seq<Unit>)
    ensures c < 0x10000 ==> units == [c]
    ensures c >= 0x10000 ==>
              && |units| == 2 && IsHigh(units[0]) && IsLow(units[1])
              && var high: int, low: int := units[0], units[1];
                 c == 0x10000 + (high - 0xD800) * 0x400 + (low - 0xDC00)
  {
    if c < 0x10000 then [c] else [0xD800 + (c - 0x10000) / 0x400, 0xDC00 + (c - 0x10000) % 0x400]
  }

  function Utf16(t: Text): (units: seq<Unit>)
  {
    if t == [] then [] else EncodeUtf16(t[0]) + Utf16(t[1..])
  }

  function Combine(high: Unit, low: Unit): (c: Scalar)
    requires IsHigh(high) && IsLow(low)
    ensures EncodeUtf16(c) == [high, low]
  {
    0x10000 + (high - 0xD800) * 0x400 + (low - 0xDC00)
  }

  // ----- Hexadecimal digits -----

  predicate IsHexDigit(c: Scalar)
  {
    48 <= c <= 57 || 65 <= c <= 70 || 97 <= c <= 102
  }

  function HexValue(c: Scalar): (n: nat)
    requires IsHexDigit(c)
    ensures n < 16
  {
    if c <= 57 then c - 48 else if c <= 70 then c - 55 else c - 87
  }

  function HexDigit(n: nat): (c: Scalar)
    requires n < 16
    ensures IsHexDigit(c) && HexValue(c) == n
  {
    if n < 10 then 48 + n else 87 + n
  }

  /** The value of a digit `0` to `9` or `a` to `f`. */
  function LowerDigit(c: Scalar): (n: int)
  {
    if c <= 57 then c - 48 else c - 87
  }

  function ParseHex(digits: Text): (u: Unit)
    requires |digits| == 4 && forall i :: 0 <= i < 4 ==> IsHexDigit(digits[i])
  {
    HexValue(digits[0]) * 4096 + HexValue(digits[1]) * 256 + HexValue(digits[2]) * 16 + HexValue(digits[3])
  }

  function FormatHex(u: Unit): (digits: Text)
    ensures |digits| == 4 && forall i :: 0 <= i < 4 ==> 48 <= digits[i] <= 57 || 97 <= digits[i] <= 102
    ensures u == 4096 * LowerDigit(digits[0]) + 256 * LowerDigit(digits[1]) + 16 * LowerDigit(digits[2])
                 + LowerDigit(digits[3])
    ensures |digits| == 4 && (forall i :: 0 <= i < 4 ==> IsHexDigit(digits[i])) && ParseHex(digits) == u
  {
    var q1 := u / 16;
    var q2 := q1 / 16;
    [HexDigit(q2 / 16), HexDigit(q2 % 16), HexDigit(q1 % 16), HexDigit(u % 16)]
  }

  // ----- The encoding -----

  /** Surrogate pairs become one scalar; lone surrogates and U+FFFD are escaped. */
  function Encode(units: seq<Unit>): (t: Text)
  {
    if units == [] then []
    else if |units| >= 2 && IsHigh(units[0]) && IsLow(units[1]) then [Combine(units[0], units[1])] + Encode(units[2..])
    else if IsHigh(units[0]) || IsLow(units[0]) || units[0] == REPLACEMENT then
      [REPLACEMENT] + FormatHex(units[0]) + Encode(units[1..])
    else [units[0]] + Encode(units[1..])
  }

  /** An escape at the start of the text. */
  predicate StartsEscape(t: Text)
  {
    |t| >= 5 && t[0] == REPLACEMENT && forall i :: 1 <= i < 5 ==> IsHexDigit(t[i])
  }

  /** Escapes give their unit; anything else, a stray U+FFFD included, gives its UTF-16 units. */
  function Decode(t: Text): (units: seq<Unit>)
  {
    if t == [] then []
    else if StartsEscape(t) then [ParseHex(t[1..5])] + Decode(t[5..])
    else EncodeUtf16(t[0]) + Decode(t[1..])
  }

  /** Decoding an encoded string gives back its code units, whatever they are. */
  lemma {:induction false} DecodeEncode(units: seq<Unit>)
    ensures Decode(Encode(units)) == units
    decreases |units|
  {
    if units != [] {
      var t, u := Encode(units), units[0];
      if |units| >= 2 && IsHigh(u) && IsLow(units[1]) {
        DecodeEncode(units[2..]);
        assert t[1..] == Encode(units[2..]) && t[0] == Combine(u, units[1]);
        assert units == [u, units[1]] + units[2..];
      } else if IsHigh(u) || IsLow(u) || u == REPLACEMENT {
        DecodeEncode(units[1..]);
        assert t[5..] == Encode(units[1..]) && t[1..5] == FormatHex(u);
        assert forall i :: 1 <= i < 5 ==> t[i] == FormatHex(u)[i - 1];
      } else {
        DecodeEncode(units[1..]);
        assert t[1..] == Encode(units[1..]) && t[0] == u;
      }
    }
  }

  function Escapes(t: Text): (n: nat)
  {
    if t == [] then 0 else if StartsEscape(t) then 1 + Escapes(t[5..]) else Escapes(t[1..])
  }

  lemma {:induction false} Utf16Split(a: Text, b: Text)
    ensures Utf16(a + b) == Utf16(a) + Utf16(b)
  {
    hide EncodeUtf16;
    if a == [] {
      assert a + b == b;
    } else {
      Utf16Split(a[1..], b);
      assert (a + b)[1..] == a[1..] + b;
    }
  }

  lemma {:induction false} DigitsAreUnits(t: Text)
    requires forall i :: 0 <= i < |t| ==> t[i] < 0x10000
    ensures Utf16(t) == t
  {
    if t != [] {
      DigitsAreUnits(t[1..]);
    }
  }

  lemma {:induction false} DecodedLength(t: Text)
    ensures |Decode(t)| + 4 * Escapes(t) == |Utf16(t)|
    decreases |t|
  {
    if t != [] {
      if StartsEscape(t) {
        DecodedLength(t[5..]);
        Utf16Split(t[..5], t[5..]);
        DigitsAreUnits(t[..5]);
        assert t == t[..5] + t[5..];
      } else {
        DecodedLength(t[1..]);
      }
    }
  }

  lemma {:induction false} PlainDecodes(t: Text)
    requires Escapes(t) == 0
    ensures Decode(t) == Utf16(t)
    decreases |t|
  {
    if t != [] {
      PlainDecodes(t[1..]);
    }
  }

  /** Text is taken as it stands exactly when no escape occurs in it. */
  lemma {:induction false} PlainExactly(t: Text)
    ensures Decode(t) == Utf16(t) <==> Escapes(t) == 0
  {
    DecodedLength(t);
    if Escapes(t) == 0 {
      PlainDecodes(t);
    }
  }

  // ----- The decoder -----

  lemma {:induction false} NotAnEscape(t: Text)
    requires t != [] && !StartsEscape(t)
    ensures Decode(t) == EncodeUtf16(t[0]) + Decode(t[1..])
  {}

  /** Fewer than four digits after U+FFFD: what was read stands for itself. */
  lemma {:induction false} HexRunIsPlain(t: Text, n: nat)
    requires n <= |t| && forall i :: 0 <= i < n ==> IsHexDigit(t[i])
    ensures Decode(t) == t[..n] + Decode(t[n..])
  {
    hide Decode;
    if n == 0 {
      assert t[0..] == t && t[..0] == [];
    } else {
      NotAnEscape(t);
      HexRunIsPlain(t[1..], n - 1);
      assert t[1..][..n - 1] == t[1..n] && t[1..][n - 1..] == t[n..];
      assert t[..n] == [t[0]] + t[1..n];
      assert EncodeUtf16(t[0]) == [t[0]];
    }
  }

  /** Up to four digits from position `i`. */
  method ReadHex(value: Text, i: nat) returns (hex: Text)
    requires i <= |value|
    ensures |hex| <= 4 && i + |hex| <= |value| && hex == value[i..i + |hex|]
    ensures forall k :: 0 <= k < |hex| ==> IsHexDigit(hex[k])
    ensures |hex| < 4 ==> i + |hex| == |value| || !IsHexDigit(value[i + |hex|])
  {
    hex := [];
    while |hex| < 4 && i + |hex| < |value| && IsHexDigit(value[i + |hex|])
      invariant |hex| <= 4 && i + |hex| <= |value| && hex == value[i..i + |hex|]
      invariant forall k :: 0 <= k < |hex| ==> IsHexDigit(hex[k])
      decreases 4 - |hex|
    {
      hex := hex + [value[i + |hex|]];
    }
  }

  lemma {:induction false} MalformedEscape(t: Text, n: nat)
    requires n < 4 && n + 1 <= |t| && t[0] == REPLACEMENT
    requires (forall i :: 1 <= i <= n ==> IsHexDigit(t[i])) && (n + 1 == |t| || !IsHexDigit(t[n + 1]))
    ensures Decode(t) == t[..n + 1] + Decode(t[n + 1..])
  {
    hide IsHexDigit, Decode;
    var tail := t[1..];
    HexRunIsPlain(tail, n);
    assert tail[n..] == t[n + 1..] && t[..n + 1] == [t[0]] + tail[..n];
    assert EncodeUtf16(t[0]) == [t[0]];
    NotAnEscape(t);
    assert [t[0]] + (tail[..n] + Decode(tail[n..])) == t[..n + 1] + Decode(t[n + 1..]);
  }

  /** What starts at a U+FFFD: an escape, or the malformed remains of one, which stand for themselves. */
  method DecodeEscape(value: Text, i: nat) returns (units: seq<Unit>, next: nat)
    requires i < |value| && value[i] == REPLACEMENT
    ensures i < next <= |value| && Decode(value[i..]) == units + Decode(value[next..])
  {
    hide Decode;
    var hex := ReadHex(value, i + 1);
    next := i + 1 + |hex|;
    ghost var rest := value[i..];
    assert rest[|hex| + 1..] == value[next..];
    assert forall k :: 0 <= k < |hex| ==> rest[k + 1] == hex[k];
    if |hex| == 4 {
      units := [ParseHex(hex)];
      assert rest[1..5] == hex;
      EscapeDecodes(rest);
    } else {
      units := [REPLACEMENT] + hex;
      MalformedEscape(rest, |hex|);
      assert rest[..|hex| + 1] == units;
    }
  }

  lemma {:induction false} EscapeDecodes(t: Text)
    requires StartsEscape(t)
    ensures Decode(t) == [ParseHex(t[1..5])] + Decode(t[5..])
  {}

  /** Decoding from position `i` on, one scalar or escape at a time. */
  lemma {:induction false} DecodeNext(value: Text, i: nat, out: seq<Unit>, units: seq<Unit>, next: nat, all: seq<Unit>)
    requires i < next <= |value| && Decode(value[i..]) == units + Decode(value[next..])
    requires out + Decode(value[i..]) == all
    ensures (out + units) + Decode(value[next..]) == all
  {
    hide *;
    assert out + (units + Decode(value[next..])) == (out + units) + Decode(value[next..]);
  }

  lemma {:induction false} DecodePlain(value: Text, i: nat)
    requires i < |value| && value[i] != REPLACEMENT
    ensures Decode(value[i..]) == EncodeUtf16(value[i]) + Decode(value[i + 1..])
  {
    hide Decode, EncodeUtf16;
    NotAnEscape(value[i..]);
    assert value[i..][1..] == value[i + 1..];
  }

  lemma {:induction false} DecodeEnds(value: Text)
    ensures value[0..] == value && Decode(value[|value|..]) == []
  {}

  method DecodeLoneSurrogateString(value: Text) returns (out: seq<Unit>)
    ensures out == Decode(value)
  {
    hide *;
    out := [];
    var i := 0;
    DecodeEnds(value);
    while i < |value|
      invariant i <= |value| && out + Decode(value[i..]) == Decode(value)
    {
      var units, next := EncodeUtf16(value[i]), i + 1;
      if value[i] == REPLACEMENT {
        units, next := DecodeEscape(value, i);
      } else {
        DecodePlain(value, i);
      }
      DecodeNext(value, i, out, units, next, Decode(value));
      out := out + units;
      i := next;
    }
    assert out + [] == out;
  }
}
