/**
  Session tokens (agents/auth.py). UTF-8 and HMAC-SHA256 (RFC 2104) enter as
  function values; HMAC stays uninterpreted.
*/
module AuthToken {
  import opened Common
  import opened Base64Url

  datatype Crypto = Crypto(
    utf8: string -> seq<byte>,
    fromUtf8: seq<byte> -> Option<string>,
    hmac: (seq<byte>, seq<byte>) -> seq<byte>)

  function AsciiBytes(s: string): seq<byte>
    requires IsAscii(s)
  {
    seq(|s|, i requires 0 <= i < |s| => s[i] as int)
  }

  /** Strict UTF-8: decoding and encoding are inverse, and ASCII text is its own encoding. */
  ghost predicate ValidCrypto(c: Crypto) {
    && (forall s :: c.fromUtf8(c.utf8(s)) == Some(s))
    && (forall b :: c.fromUtf8(b).Some? ==> c.utf8(c.fromUtf8(b).value) == b)
    && (forall s :: IsAscii(s) ==> c.utf8(s) == AsciiBytes(s))
  }

  // ---- Decimal integers ----

  function Digit(d: int): char
    requires 0 <= d < 10
  {
    '0' + d as char
  }

  function Digits(n: nat): string {
    if n < 10 then [Digit(n)] else Digits(n / 10) + [Digit(n % 10)]
  }

  /** `str(n)` */
  function Decimal(n: int): string {
    if n < 0 then "-" + Digits(-n) else Digits(n)
  }

  predicate IsPySpace(ch: char) {
    || ch in [' ', '\U{85}', '\U{a0}', '\U{1680}', '\U{2028}', '\U{2029}', '\U{202f}', '\U{205f}', '\U{3000}']
    || '\U{09}' <= ch <= '\U{0d}'
    || '\U{1c}' <= ch <= '\U{1f}'
    || '\U{2000}' <= ch <= '\U{200a}'
  }

  function StripLeft(s: string): string {
    if s != "" && IsPySpace(s[0]) then StripLeft(s[1..]) else s
  }

  function StripRight(s: string): string {
    if s != "" && IsPySpace(s[|s| - 1]) then StripRight(s[..|s| - 1]) else s
  }

  /** Digits with single underscores between them; `need` says that a digit must come next. */
  function ReadDigits(s: string, acc: nat, need: bool): Option<nat> {
    if s == "" then
      if need then None else Some(acc)
    else if '0' <= s[0] <= '9' then ReadDigits(s[1..], acc * 10 + (s[0] - '0') as int, false)
    else if s[0] == '_' && !need then ReadDigits(s[1..], acc, true)
    else None
  }

  /** `int(s)` on text with ASCII digits. */
  function ReadInt(s: string): Option<int> {
    var t := StripRight(StripLeft(s));
    if t != "" && t[0] == '-' then
      var n := ReadDigits(t[1..], 0, true);
      if n == None then None else Some(-(n.value as int))
    else if t != "" && t[0] == '+' then
      var n := ReadDigits(t[1..], 0, true);
      if n == None then None else Some(n.value)
    else
      var n := ReadDigits(t, 0, true);
      if n == None then None else Some(n.value)
  }

  predicate IsDigit(ch: char) {
    '0' <= ch <= '9'
  }

  lemma {:induction false} DigitsAreDigits(n: nat)
    ensures Digits(n) != "" && forall i :: 0 <= i < |Digits(n)| ==> IsDigit(Digits(n)[i])
  {
    if n >= 10 {
      DigitsAreDigits(n / 10);
    }
  }

  lemma {:induction false} ReadBackDigits(n: nat, rest: string)
    ensures ReadDigits(Digits(n) + rest, 0, true) == ReadDigits(rest, n, false)
  {
    var d := Digit(n % 10);
    if n < 10 {
      assert ([d] + rest)[1..] == rest;
    } else {
      ReadBackDigits(n / 10, [d] + rest);
      assert Digits(n) + rest == Digits(n / 10) + ([d] + rest);
      assert ([d] + rest)[1..] == rest;
    }
  }

  /** Reading a printed integer gives it back. */
  lemma DecimalRoundTrip(n: int)
    ensures ReadInt(Decimal(n)) == Some(n)
  {
    var m: nat := if n < 0 then -n else n;
    DigitsAreDigits(m);
    ReadBackDigits(m, "");
    assert Digits(m) + "" == Digits(m);
    var s := Decimal(n);
    assert !IsPySpace(s[0]) && !IsPySpace(s[|s| - 1]);
    assert StripRight(StripLeft(s)) == s;
    if n < 0 {
      assert s[1..] == Digits(m);
    } else {
      assert IsDigit(s[0]);
    }
  }

  lemma DecimalShape(n: int)
    ensures IsAscii(Decimal(n)) && '|' !in Decimal(n)
  {
    DigitsAreDigits(if n < 0 then -n else n);
    forall i | 0 <= i < |Decimal(n)|
      ensures Decimal(n)[i] == '-' || IsDigit(Decimal(n)[i])
    {
    }
  }

  // ---- Tokens ----

  const BAR: byte := 124

  function Message(c: Crypto, agent: string, expiry: int): seq<byte> {
    c.utf8(agent) + [BAR] + c.utf8(Decimal(expiry))
  }

  function CreateToken(c: Crypto, agent: string, expiry: int, secret: seq<byte>): string {
    Encode(c.utf8(agent)) + "." + Encode(c.utf8(Decimal(expiry))) + "."
    + Encode(c.hmac(secret, Message(c, agent, expiry)))
  }

  datatype Verdict =
    | Verified(agent: string, expiry: int)
    | InvalidToken
    | UnknownAgent
    | TokenExpired
    | SignatureMismatch

  function SplitFrom(text: string, cur: string): seq<string> {
    if text == "" then [cur]
    else if text[0] == '.' then [cur] + SplitFrom(text[1..], "")
    else SplitFrom(text[1..], cur + [text[0]])
  }

  function DecodeText(c: Crypto, part: string): Option<string> {
    var raw := Decode(part);
    if raw == None then None else c.fromUtf8(raw.value)
  }

  /** `verify_token` at time `now`. */
  function VerifyToken(c: Crypto, token: string, expected: string, secret: seq<byte>, now: int): Verdict {
    var parts := SplitFrom(token, "");
    if |parts| != 3 then InvalidToken
    else
      var agent, expiryText, sig := DecodeText(c, parts[0]), DecodeText(c, parts[1]), Decode(parts[2]);
      if agent == None || expiryText == None || sig == None then InvalidToken
      else if agent.value != expected then UnknownAgent
      else
        var expiry := ReadInt(expiryText.value);
        if expiry == None then InvalidToken
        else if expiry.value <= now then TokenExpired
        else if sig.value != c.hmac(secret, Message(c, agent.value, expiry.value)) then SignatureMismatch
        else Verified(agent.value, expiry.value)
  }

  lemma {:induction false} SplitPart(part: string, rest: string, cur: string)
    requires '.' !in part
    ensures SplitFrom(part + "." + rest, cur) == [cur + part] + SplitFrom(rest, "")
    ensures SplitFrom(part, cur) == [cur + part]
  {
    var text := part + "." + rest;
    if part == "" {
      assert text[0] == '.' && text[1..] == rest && cur + part == cur;
    } else {
      assert text[0] == part[0] && text[1..] == part[1..] + "." + rest;
      assert cur + [part[0]] + part[1..] == cur + part;
      SplitPart(part[1..], rest, cur + [part[0]]);
    }
  }

  lemma SplitThree(a: string, b: string, d: string)
    requires '.' !in a && '.' !in b && '.' !in d
    ensures SplitFrom(a + "." + b + "." + d, "") == [a, b, d]
  {
    assert a + "." + b + "." + d == a + "." + (b + "." + d);
    SplitPart(a, b + "." + d, "");
    SplitPart(b, d, "");
    SplitPart(d, "", "");
    assert "" + a == a && "" + b == b && "" + d == d;
  }

  lemma TextRoundTrip(c: Crypto, s: string)
    requires ValidCrypto(c)
    ensures DecodeText(c, Encode(c.utf8(s))) == Some(s)
    ensures '.' !in Encode(c.utf8(s))
  {
    RoundTrip(c.utf8(s));
  }

  function Joined(parts: seq<string>): string
    requires parts != []
  {
    if |parts| == 1 then parts[0] else parts[0] + "." + Joined(parts[1..])
  }

  lemma {:induction false} SplitJoins(text: string, cur: string)
    requires '.' !in cur
    ensures SplitFrom(text, cur) != [] && Joined(SplitFrom(text, cur)) == cur + text
    ensures forall i :: 0 <= i < |SplitFrom(text, cur)| ==> '.' !in SplitFrom(text, cur)[i]
  {
    if text != "" {
      if text[0] == '.' {
        var rest := SplitFrom(text[1..], "");
        SplitJoins(text[1..], "");
        assert ([cur] + rest)[1..] == rest && "" + text[1..] == text[1..];
        assert cur + "." + text[1..] == cur + text;
        forall i | 0 <= i < |rest| + 1
          ensures '.' !in ([cur] + rest)[i]
        {
        }
      } else {
        SplitJoins(text[1..], cur + [text[0]]);
        assert cur + [text[0]] + text[1..] == cur + text;
      }
    }
  }

  /** The token says `agent` and `expiry` in its first two parts and carries the HMAC of the two in its third. */
  ghost predicate Vouches(c: Crypto, token: string, agent: string, expiry: int, secret: seq<byte>) {
    exists a, x, sig, text :: VouchesWith(c, token, agent, expiry, secret, a, x, sig, text)
  }

  ghost predicate VouchesWith(c: Crypto, token: string, agent: string, expiry: int, secret: seq<byte>,
                              a: string, x: string, sig: string, text: string)
  {
    && '.' !in a && '.' !in x && '.' !in sig && token == a + "." + x + "." + sig
    && Decode(a) == Some(c.utf8(agent))
    && Decode(x) == Some(c.utf8(text)) && ReadInt(text) == Some(expiry)
    && Decode(sig) == Some(c.hmac(secret, c.utf8(agent) + [124] + c.utf8(Decimal(expiry))))
  }

  /**
    What acceptance means, for every token whoever made it: the agent is the
    expected one, the expiry is yet to come, and the token is three dot-free parts
    that spell this agent and this expiry and the HMAC of the two under the secret.
  */
  lemma VerifiedExactly(c: Crypto, token: string, expected: string, secret: seq<byte>, now: int,
                        agent: string, expiry: int)
    requires ValidCrypto(c)
    ensures VerifyToken(c, token, expected, secret, now) == Verified(agent, expiry) <==>
            agent == expected && expiry > now && Vouches(c, token, agent, expiry, secret)
  {
    if VerifyToken(c, token, expected, secret, now) == Verified(agent, expiry) {
      VerifiedVouches(c, token, expected, secret, now, agent, expiry);
    }
    if agent == expected && expiry > now && Vouches(c, token, agent, expiry, secret) {
      VouchedVerifies(c, token, secret, now, agent, expiry);
    }
  }

  lemma SplitInThree(token: string)
    requires |SplitFrom(token, "")| == 3
    ensures var parts := SplitFrom(token, "");
            && token == parts[0] + "." + parts[1] + "." + parts[2]
            && '.' !in parts[0] && '.' !in parts[1] && '.' !in parts[2]
  {
    var parts := SplitFrom(token, "");
    SplitJoins(token, "");
    assert parts[1..][0] == parts[1] && parts[1..][1..] == [parts[2]];
    assert Joined(parts[1..]) == parts[1] + "." + parts[2];
    assert Joined(parts) == parts[0] + "." + (parts[1] + "." + parts[2]);
    assert "" + token == token;
  }

  lemma VerifiedVouches(c: Crypto, token: string, expected: string, secret: seq<byte>, now: int,
                        agent: string, expiry: int)
    requires ValidCrypto(c) && VerifyToken(c, token, expected, secret, now) == Verified(agent, expiry)
    ensures agent == expected && expiry > now && Vouches(c, token, agent, expiry, secret)
  {
    var parts := SplitFrom(token, "");
    SplitInThree(token);
    var text := DecodeText(c, parts[1]).value;
    assert VouchesWith(c, token, agent, expiry, secret, parts[0], parts[1], parts[2], text);
  }

  lemma VouchedVerifies(c: Crypto, token: string, secret: seq<byte>, now: int, agent: string, expiry: int)
    requires ValidCrypto(c) && expiry > now && Vouches(c, token, agent, expiry, secret)
    ensures VerifyToken(c, token, agent, secret, now) == Verified(agent, expiry)
  {
    var a, x, sig, text :| VouchesWith(c, token, agent, expiry, secret, a, x, sig, text);
    SplitThree(a, x, sig);
  }

  /**
    What verification makes of a created token, for every agent, expiry, secrets,
    expected agent and clock: the checks in their order, and success with the same
    agent and expiry when the token is for this agent, unexpired and signed with
    this secret (or with one that gives the same HMAC on this message).
  */
  lemma CreatedTokenVerdict(c: Crypto, agent: string, expiry: int, secret: seq<byte>,
                            expected: string, secret2: seq<byte>, now: int)
    requires ValidCrypto(c)
    ensures var m := Message(c, agent, expiry);
            VerifyToken(c, CreateToken(c, agent, expiry, secret), expected, secret2, now) ==
            if agent != expected then UnknownAgent
            else if expiry <= now then TokenExpired
            else if c.hmac(secret, m) != c.hmac(secret2, m) then SignatureMismatch
            else Verified(agent, expiry)
  {
    var sig := c.hmac(secret, Message(c, agent, expiry));
    TextRoundTrip(c, agent);
    TextRoundTrip(c, Decimal(expiry));
    RoundTrip(sig);
    DecimalRoundTrip(expiry);
    SplitThree(Encode(c.utf8(agent)), Encode(c.utf8(Decimal(expiry))), Encode(sig));
  }

  /** Round trip: an unexpired token verifies for its agent and secret, with the agent and expiry it was made for. */
  lemma TokenRoundTrip(c: Crypto, agent: string, expiry: int, secret: seq<byte>, now: int)
    requires ValidCrypto(c) && now < expiry
    ensures VerifyToken(c, CreateToken(c, agent, expiry, secret), agent, secret, now) == Verified(agent, expiry)
  {
    CreatedTokenVerdict(c, agent, expiry, secret, agent, secret, now);
  }

  lemma LastBar(a: seq<byte>, x: seq<byte>)
    requires BAR !in x
    ensures var s := a + [BAR] + x;
            s[|a|] == BAR && forall i :: |a| < i < |s| ==> s[i] != BAR
  {
  }

  lemma LastBarSplits(a: seq<byte>, x: seq<byte>, b: seq<byte>, y: seq<byte>)
    requires BAR !in x && BAR !in y && a + [BAR] + x == b + [BAR] + y
    ensures a == b && x == y
  {
    var s, t := a + [BAR] + x, b + [BAR] + y;
    LastBar(a, x);
    LastBar(b, y);
    assert |a| == |b|;
    assert a == s[..|a|] && b == t[..|a|];
    assert x == s[|a| + 1..] && y == t[|a| + 1..];
  }

  /** Different (agent, expiry) pairs never sign the same message, even when agents contain '|'. */
  lemma MessageInjective(c: Crypto, agent: string, expiry: int, agent2: string, expiry2: int)
    requires ValidCrypto(c) && Message(c, agent, expiry) == Message(c, agent2, expiry2)
    ensures agent == agent2 && expiry == expiry2
  {
    var x, y := Decimal(expiry), Decimal(expiry2);
    DecimalShape(expiry);
    DecimalShape(expiry2);
    NoBar(x);
    NoBar(y);
    LastBarSplits(c.utf8(agent), AsciiBytes(x), c.utf8(agent2), AsciiBytes(y));
    assert Some(agent) == c.fromUtf8(c.utf8(agent)) == Some(agent2);
    assert Some(x) == c.fromUtf8(c.utf8(x)) == Some(y);
    DecimalRoundTrip(expiry);
    DecimalRoundTrip(expiry2);
  }

  lemma NoBar(s: string)
    requires IsAscii(s) && '|' !in s
    ensures BAR !in AsciiBytes(s)
  {
    forall i | 0 <= i < |s|
      ensures AsciiBytes(s)[i] != BAR
    {
      assert s[i] in s && s[i] != '|';
    }
  }

  /**
    A signature vouches for one pair only: two tokens accepted under one secret
    with the same decoded signature name the same agent and expiry, or two
    different messages have one HMAC.
  */
  lemma SignatureBindsPair(c: Crypto, t: string, u: string, a: string, b: string, secret: seq<byte>,
                           now: int, later: int)
    requires ValidCrypto(c)
    ensures var v, w := VerifyToken(c, t, a, secret, now), VerifyToken(c, u, b, secret, later);
            v.Verified? && w.Verified? && Decode(SplitFrom(t, "")[2]) == Decode(SplitFrom(u, "")[2]) ==>
              || v == w
              || (Message(c, v.agent, v.expiry) != Message(c, w.agent, w.expiry)
                  && c.hmac(secret, Message(c, v.agent, v.expiry)) == c.hmac(secret, Message(c, w.agent, w.expiry)))
  {
    var v, w := VerifyToken(c, t, a, secret, now), VerifyToken(c, u, b, secret, later);
    if v.Verified? && w.Verified? && Message(c, v.agent, v.expiry) == Message(c, w.agent, w.expiry) {
      MessageInjective(c, v.agent, v.expiry, w.agent, w.expiry);
    }
  }
}
