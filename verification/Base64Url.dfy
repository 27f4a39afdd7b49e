/**
  URL-safe base64 without padding as agents/auth.py uses it (sections 3.2 and 5
  of RFC 4648). Decoding follows CPython's lenient decoder: it skips characters
  outside the alphabet, and still reads the standard '+' and '/'.
*/
module Base64Url {
  import opened Common

  type sextet = x: int | 0 <= x < 64

  function CharOf(s: sextet): char {
    if s < 26 then 'A' + s as char
    else if s < 52 then 'a' + (s - 26) as char
    else if s < 62 then '0' + (s - 52) as char
    else if s == 62 then '-'
    else '_'
  }

  function SextetOf(ch: char): Option<sextet> {
    if 'A' <= ch <= 'Z' then Some((ch - 'A') as int)
    else if 'a' <= ch <= 'z' then Some((ch - 'a') as int + 26)
    else if '0' <= ch <= '9' then Some((ch - '0') as int + 52)
    else if ch == '-' || ch == '+' then Some(62)
    else if ch == '_' || ch == '/' then Some(63)
    else None
  }

  predicate InAlphabet(ch: char) {
    || 'A' <= ch <= 'Z'
    || 'a' <= ch <= 'z'
    || '0' <= ch <= '9'
    || ch == '-'
    || ch == '_'
  }

  lemma CharRoundTrip(s: sextet)
    ensures SextetOf(CharOf(s)) == Some(s) && InAlphabet(CharOf(s))
  {
  }

  function Group(b0: byte, b1: byte, b2: byte): string {
    [CharOf(b0 / 4), CharOf(b0 % 4 * 16 + b1 / 16), CharOf(b1 % 16 * 4 + b2 / 64), CharOf(b2 % 64)]
  }

  /** `urlsafe_b64encode(raw).rstrip("=")`: three bytes to four characters; one or two left over give two or three. */
  function Encode(raw: seq<byte>): string {
    if |raw| == 0 then ""
    else if |raw| == 1 then
      [CharOf(raw[0] / 4), CharOf(raw[0] % 4 * 16)]
    else if |raw| == 2 then
      [CharOf(raw[0] / 4), CharOf(raw[0] % 4 * 16 + raw[1] / 16), CharOf(raw[1] % 16 * 4)]
    else
      Group(raw[0], raw[1], raw[2]) + Encode(raw[3..])
  }

  /** The byte completed by the character at place `quad` of its group, after `left`. */
  function Emitted(quad: nat, left: nat, s: sextet): byte
    requires 0 < quad < 4
    requires if quad == 1 then left < 64 else if quad == 2 then left < 16 else left < 4
  {
    if quad == 1 then left * 4 + s / 16 else if quad == 2 then left * 16 + s / 4 else left * 64 + s
  }

  /** The bits of that character left over. */
  function Kept(quad: nat, s: sextet): nat {
    if quad == 1 then s % 16 else if quad == 2 then s % 4 else 0
  }

  /**
    The decoder's loop. `quad` counts the characters of the current group,
    `left` holds the bits not yet emitted, `pads` the consecutive '=' seen.
  */
  function DecodeFrom(text: string, quad: nat, left: nat, pads: nat): Option<seq<byte>>
    requires quad < 4 && left < 64
    requires (quad == 2 ==> left < 16) && (quad == 3 ==> left < 4)
  {
    if text == "" then
      if quad == 0 then Some([]) else None
    else if text[0] == '=' then
      if quad >= 2 && quad + pads + 1 >= 4 then Some([])
      else DecodeFrom(text[1..], quad, left, if quad >= 2 then pads + 1 else pads)
    else
      match SextetOf(text[0])
      case None => DecodeFrom(text[1..], quad, left, pads)
      case Some(s) =>
        if quad == 0 then
          DecodeFrom(text[1..], 1, s, 0)
        else
          var rest := DecodeFrom(text[1..], (quad + 1) % 4, Kept(quad, s), 0);
          if rest == None then None else Some([Emitted(quad, left, s)] + rest.value)
  }

  function Padding(n: nat): string {
    if n % 4 == 0 then "" else if n % 4 == 1 then "===" else if n % 4 == 2 then "==" else "="
  }

  predicate IsAscii(text: string) {
    forall i :: 0 <= i < |text| ==> text[i] < '\U{80}'
  }

  /** `urlsafe_b64decode(text + padding)`; a non-ASCII string and a cut-off group are errors. */
  function Decode(text: string): Option<seq<byte>> {
    if IsAscii(text) then DecodeFrom(text + Padding(|text|), 0, 0, 0) else None
  }

  lemma {:induction false} EncodeShape(raw: seq<byte>)
    ensures |Encode(raw)| == (4 * |raw| + 2) / 3
    ensures forall i :: 0 <= i < |Encode(raw)| ==> InAlphabet(Encode(raw)[i])
  {
    if |raw| >= 3 {
      EncodeShape(raw[3..]);
      assert |Encode(raw)| == 4 + |Encode(raw[3..])|;
    }
  }

  /** The last character's value, if there is one. */
  function LastValue(text: string): Option<sextet> {
    if text == "" then None else SextetOf(text[|text| - 1])
  }

  lemma LastOfSum(a: string, b: string)
    requires b != ""
    ensures LastValue(a + b) == LastValue(b)
  {
  }

  lemma ShortTail(raw: seq<byte>)
    requires 0 < |raw| < 3
    ensures LastValue(Encode(raw)) == Some(if |raw| == 1 then raw[0] % 4 * 16 else raw[1] % 16 * 4)
  {
    CharRoundTrip(if |raw| == 1 then raw[0] % 4 * 16 else raw[1] % 16 * 4);
  }

  /** The bits of the last character that encode nothing are zero: four when one byte is left over, two when two are. */
  lemma {:induction false} PadBitsZero(raw: seq<byte>, groups: nat)
    ensures |raw| == 3 * groups + 1 ==> LastValue(Encode(raw)).Some? && LastValue(Encode(raw)).value % 16 == 0
    ensures |raw| == 3 * groups + 2 ==> LastValue(Encode(raw)).Some? && LastValue(Encode(raw)).value % 4 == 0
  {
    if 0 < |raw| < 3 {
      ShortTail(raw);
    } else if groups > 0 && 3 * groups < |raw| < 3 * groups + 3 {
      PadBitsZero(raw[3..], groups - 1);
      EncodeShape(raw[3..]);
      LastOfSum(Group(raw[0], raw[1], raw[2]), Encode(raw[3..]));
    }
  }

  /** A test vector of section 10 of RFC 4648: "foobar". */
  lemma Foobar()
    ensures Encode([102, 111, 111, 98, 97, 114]) == "Zm9vYmFy"
  {
    var raw: seq<byte> := [102, 111, 111, 98, 97, 114];
    assert raw[3..] == [98, 97, 114] && raw[3..][3..] == [];
    assert Group(98, 97, 114) == "YmFy" && Group(102, 111, 111) == "Zm9v";
  }

  /** The characters for 62 and 63. */
  lemma LastTwoCharacters()
    ensures Encode([251, 255, 191]) == "-_-_"
  {
    var raw: seq<byte> := [251, 255, 191];
    assert raw[3..] == [];
  }

  lemma DecodeChar(s: sextet, rest: string, quad: nat, left: nat)
    requires quad < 4 && left < 64
    requires (quad == 2 ==> left < 16) && (quad == 3 ==> left < 4)
    ensures DecodeFrom([CharOf(s)] + rest, quad, left, 0) ==
            if quad == 0 then DecodeFrom(rest, 1, s, 0)
            else
              var tail := DecodeFrom(rest, (quad + 1) % 4, Kept(quad, s), 0);
              if tail == None then None else Some([Emitted(quad, left, s)] + tail.value)
  {
    var text := [CharOf(s)] + rest;
    CharRoundTrip(s);
    assert text[0] == CharOf(s) && text[1..] == rest;
  }

  lemma DecodeTwo(s0: sextet, s1: sextet, rest: string)
    ensures var t := DecodeFrom(rest, 2, s1 % 16, 0);
            DecodeFrom([CharOf(s0), CharOf(s1)] + rest, 0, 0, 0) ==
            if t == None then None else Some([s0 * 4 + s1 / 16] + t.value)
  {
    assert [CharOf(s0), CharOf(s1)] + rest == [CharOf(s0)] + ([CharOf(s1)] + rest);
    DecodeChar(s0, [CharOf(s1)] + rest, 0, 0);
    DecodeChar(s1, rest, 1, s0);
  }

  lemma DecodeThird(s2: sextet, rest: string, left: nat)
    requires left < 16
    ensures var t := DecodeFrom(rest, 3, s2 % 4, 0);
            DecodeFrom([CharOf(s2)] + rest, 2, left, 0) ==
            if t == None then None else Some([left * 16 + s2 / 4] + t.value)
  {
    DecodeChar(s2, rest, 2, left);
  }

  lemma DecodeFourth(s3: sextet, rest: string, left: nat)
    requires left < 4
    ensures var t := DecodeFrom(rest, 0, 0, 0);
            DecodeFrom([CharOf(s3)] + rest, 3, left, 0) ==
            if t == None then None else Some([left * 64 + s3] + t.value)
  {
    DecodeChar(s3, rest, 3, left);
  }

  lemma DecodeThree(s0: sextet, s1: sextet, s2: sextet, rest: string)
    ensures var t := DecodeFrom(rest, 3, s2 % 4, 0);
            DecodeFrom([CharOf(s0), CharOf(s1), CharOf(s2)] + rest, 0, 0, 0) ==
            if t == None then None else Some([s0 * 4 + s1 / 16, s1 % 16 * 16 + s2 / 4] + t.value)
  {
    var tail := [CharOf(s2)] + rest;
    assert [CharOf(s0), CharOf(s1), CharOf(s2)] + rest == [CharOf(s0), CharOf(s1)] + tail;
    DecodeTwo(s0, s1, tail);
    DecodeThird(s2, rest, s1 % 16);
    var t := DecodeFrom(rest, 3, s2 % 4, 0);
    if t.Some? {
      PrependOne(s0 * 4 + s1 / 16, s1 % 16 * 16 + s2 / 4, t.value);
    }
  }

  lemma PrependOne(x: byte, y: byte, s: seq<byte>)
    ensures [x] + ([y] + s) == [x, y] + s
  {
  }

  lemma PrependTwo(x: byte, y: byte, z: byte, s: seq<byte>)
    ensures [x, y] + ([z] + s) == [x, y, z] + s
  {
  }

  lemma DecodeFour(s0: sextet, s1: sextet, s2: sextet, s3: sextet, rest: string)
    ensures var t := DecodeFrom(rest, 0, 0, 0);
            DecodeFrom([CharOf(s0), CharOf(s1), CharOf(s2), CharOf(s3)] + rest, 0, 0, 0) ==
            if t == None then None
            else Some([s0 * 4 + s1 / 16, s1 % 16 * 16 + s2 / 4, s2 % 4 * 64 + s3] + t.value)
  {
    var tail := [CharOf(s3)] + rest;
    assert [CharOf(s0), CharOf(s1), CharOf(s2), CharOf(s3)] + rest == [CharOf(s0), CharOf(s1), CharOf(s2)] + tail;
    DecodeThree(s0, s1, s2, tail);
    DecodeFourth(s3, rest, s2 % 4);
    var t := DecodeFrom(rest, 0, 0, 0);
    if t.Some? {
      PrependTwo(s0 * 4 + s1 / 16, s1 % 16 * 16 + s2 / 4, s2 % 4 * 64 + s3, t.value);
    }
  }

  /** Splitting bytes into sextets and joining them again. */
  lemma JoinBits(b0: byte, b1: byte, b2: byte)
    ensures b0 / 4 * 4 + (b0 % 4 * 16 + b1 / 16) / 16 == b0
    ensures (b0 % 4 * 16 + b1 / 16) % 16 * 16 + (b1 % 16 * 4 + b2 / 64) / 4 == b1
    ensures (b1 % 16 * 4 + b2 / 64) % 4 * 64 + b2 % 64 == b2
  {
  }

  lemma DecodeOneLeft(b0: byte)
    ensures DecodeFrom([CharOf(b0 / 4), CharOf(b0 % 4 * 16)] + "==", 0, 0, 0) == Some([b0])
  {
    DecodeTwo(b0 / 4, b0 % 4 * 16, "==");
    JoinBits(b0, 0, 0);
    assert "=="[1..] == "=";
    assert DecodeFrom("==", 2, 0, 0) == DecodeFrom("=", 2, 0, 1) == Some([]);
    assert [b0] + [] == [b0];
  }

  lemma DecodeTwoLeft(b0: byte, b1: byte)
    ensures DecodeFrom([CharOf(b0 / 4), CharOf(b0 % 4 * 16 + b1 / 16), CharOf(b1 % 16 * 4)] + "=", 0, 0, 0)
         == Some([b0, b1])
  {
    DecodeThree(b0 / 4, b0 % 4 * 16 + b1 / 16, b1 % 16 * 4, "=");
    JoinBits(b0, b1, 0);
    assert DecodeFrom("=", 3, 0, 0) == Some([]);
    assert [b0, b1] + [] == [b0, b1];
  }

  lemma DecodeThreeBytes(b0: byte, b1: byte, b2: byte, rest: string)
    ensures var t := DecodeFrom(rest, 0, 0, 0);
            DecodeFrom(Group(b0, b1, b2) + rest, 0, 0, 0) == if t == None then None else Some([b0, b1, b2] + t.value)
  {
    DecodeFour(b0 / 4, b0 % 4 * 16 + b1 / 16, b1 % 16 * 4 + b2 / 64, b2 % 64, rest);
    JoinBits(b0, b1, b2);
  }

  lemma DecodeShort(raw: seq<byte>)
    requires |raw| < 3
    ensures Decodes(raw, Padding(|Encode(raw)|))
  {
    if |raw| == 0 {
      assert "" + Padding(0) == "";
    } else if |raw| == 1 {
      DecodeOneLeft(raw[0]);
      assert [raw[0]] == raw;
    } else {
      DecodeTwoLeft(raw[0], raw[1]);
      assert [raw[0], raw[1]] == raw;
    }
  }

  ghost predicate Decodes(raw: seq<byte>, pad: string) {
    DecodeFrom(Encode(raw) + pad, 0, 0, 0) == Some(raw)
  }

  lemma {:induction false} DecodeEncoded(raw: seq<byte>)
    ensures Decodes(raw, Padding(|Encode(raw)|))
  {
    if |raw| < 3 {
      DecodeShort(raw);
    } else {
      DecodeEncoded(raw[3..]);
      DecodeGroup(raw, Padding(|Encode(raw[3..])|));
      SamePadding(raw);
    }
  }

  lemma SamePadding(raw: seq<byte>)
    requires |raw| >= 3
    ensures Padding(|Encode(raw)|) == Padding(|Encode(raw[3..])|)
  {
    EncodeLonger(raw);
    PaddingPeriod(|Encode(raw[3..])|);
  }

  lemma EncodeLonger(raw: seq<byte>)
    requires |raw| >= 3
    ensures |Encode(raw)| == |Encode(raw[3..])| + 4
  {
    var rest := Encode(raw[3..]);
    assert Encode(raw) == Group(raw[0], raw[1], raw[2]) + rest;
  }

  lemma PaddingPeriod(n: nat)
    ensures Padding(n + 4) == Padding(n)
  {
  }

  lemma DecodeGroup(raw: seq<byte>, pad: string)
    requires |raw| >= 3 && Decodes(raw[3..], pad)
    ensures Decodes(raw, pad)
  {
    var g, rest := Group(raw[0], raw[1], raw[2]), Encode(raw[3..]);
    assert Encode(raw) + pad == g + (rest + pad) by {
      assert Encode(raw) == g + rest;
    }
    DecodeThreeBytes(raw[0], raw[1], raw[2], rest + pad);
    assert [raw[0], raw[1], raw[2]] + raw[3..] == raw;
  }

  /** Decoding undoes encoding for every byte string, and the text has only alphabet characters. */
  lemma RoundTrip(raw: seq<byte>)
    ensures Decode(Encode(raw)) == Some(raw)
    ensures '.' !in Encode(raw)
  {
    EncodeShape(raw);
    DecodeEncoded(raw);
    var text := Encode(raw);
    forall i | 0 <= i < |text|
      ensures text[i] < '\U{80}' && text[i] != '.'
    {
      assert InAlphabet(text[i]);
    }
  }
}
