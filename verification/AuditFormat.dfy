/**
  The on-disk form of the audit log (hal/src/audit_log.rs): entries, the JSON
  codec and the digest the log relies on, and text lines.

  SHA-256 and serde_json enter as function values. Nothing is assumed about the
  digest but its shape (64 lower-case hex digits); in particular it is not
  assumed injective.
*/
module AuditFormat {
  import opened Common

  /** serde_json prints every non-finite score as `null`. */
  type Score = F32

  datatype AuditEntry = AuditEntry(
    ts: int,
    agent: string,
    action: string,
    outcome: string,
    target: Option<string>,
    halScore: Option<Score>,
    halLevel: Option<string>,
    intentId: Option<int>,
    reversible: Option<bool>,
    note: Option<string>,
    errorMessage: Option<string>,
    session: Option<string>,
    chainHash: string)

  datatype Codec = Codec(
    digest: string -> string,
    toJson: AuditEntry -> string,
    fromJson: string -> Option<AuditEntry>)

  const GENESIS_INPUT := "cognos-audit-v1"

  predicate FiniteScore(e: AuditEntry) {
    e.halScore.Some? ==> IsFinite(e.halScore.value)
  }

  /** What a printed entry shows: the non-finite scores look alike. */
  function Shown(e: AuditEntry): AuditEntry {
    if FiniteScore(e) then e else e.(halScore := Some(NotANumber))
  }

  /** What reading a printed entry gives back: a `null` score is an absent one. */
  function Normalised(e: AuditEntry): AuditEntry {
    if FiniteScore(e) then e else e.(halScore := None)
  }

  predicate IsHex(ch: char) {
    '0' <= ch <= '9' || 'a' <= ch <= 'f'
  }

  predicate IsHexDigest(s: string) {
    |s| == 64 && forall i :: 0 <= i < |s| ==> IsHex(s[i])
  }

  /** What the log needs of its digest and of its JSON codec. */
  ghost predicate ValidCodec(c: Codec) {
    && (forall s :: IsHexDigest(c.digest(s)))
    && (forall e :: c.fromJson(c.toJson(e)) == Some(Normalised(e)))
    && (forall e, f :: c.toJson(e) == c.toJson(f) <==> Shown(e) == Shown(f))
    && (forall e :: '\n' !in c.toJson(e) && '\r' !in c.toJson(e))
  }

  function Genesis(c: Codec): string {
    c.digest(GENESIS_INPUT)
  }

  /** The bytes hashed for entry `e` after a head `prev`: the entry is printed with an empty hash field. */
  function HashInput(c: Codec, prev: string, e: AuditEntry): string {
    prev + c.toJson(e.(chainHash := ""))
  }

  // ---- Text files and their lines ----

  predicate IsSpace(ch: char) {
    || ch in " \t\n\r"
    || ch in ['\U{0b}', '\U{0c}', '\U{85}', '\U{a0}', '\U{1680}']
    || ch in ['\U{2028}', '\U{2029}', '\U{202f}', '\U{205f}', '\U{3000}']
    || '\U{2000}' <= ch <= '\U{200a}'
  }

  predicate Blank(s: string) {
    forall i :: 0 <= i < |s| ==> IsSpace(s[i])
  }

  lemma DigestNotBlank(s: string)
    requires IsHexDigest(s)
    ensures !Blank(s)
  {
    assert IsHex(s[0]) && !IsSpace(s[0]);
  }

  function StripCr(s: string): string {
    if s != "" && s[|s| - 1] == '\r' then s[..|s| - 1] else s
  }

  /** `str::lines`, with `acc` the part of the current line already read. */
  function LinesFrom(text: string, acc: string): seq<string> {
    if text == "" then
      if acc == "" then [] else [acc]
    else if text[0] == '\n' then
      [StripCr(acc)] + LinesFrom(text[1..], "")
    else
      LinesFrom(text[1..], acc + [text[0]])
  }

  function Lines(text: string): seq<string> {
    LinesFrom(text, "")
  }

  /** Bytes of the UTF-8 encoding (section 3 of RFC 3629), which is what a file's size counts. */
  function ByteLen(text: string): nat {
    if text == "" then 0
    else
      var ch := text[|text| - 1];
      ByteLen(text[..|text| - 1])
      + if ch < '\U{80}' then 1 else if ch < '\U{800}' then 2 else if ch < '\U{10000}' then 3 else 4
  }

  lemma {:induction false} ByteLenAtLeast(text: string)
    ensures ByteLen(text) >= |text|
  {
    if text != "" {
      ByteLenAtLeast(text[..|text| - 1]);
    }
  }

  /** The text that writing the entries one `writeln!` at a time produces. */
  function Text(c: Codec, es: seq<AuditEntry>): string {
    if es == [] then "" else Text(c, es[..|es| - 1]) + c.toJson(es[|es| - 1]) + "\n"
  }

  lemma {:induction false} LinesOfOne(line: string, acc: string)
    requires '\n' !in line
    requires acc + line == "" || (acc + line)[|acc + line| - 1] != '\r'
    ensures LinesFrom(line + "\n", acc) == [acc + line]
  {
    var t := line + "\n";
    if line == "" {
      assert t[1..] == "";
      assert acc + line == acc;
    } else {
      assert t[0] == line[0] && t[0] in line;
      assert t[1..] == line[1..] + "\n";
      assert (acc + [line[0]]) + line[1..] == acc + line;
      LinesOfOne(line[1..], acc + [line[0]]);
    }
  }

  /** A carriage return before the line break is not part of the line. */
  lemma {:induction false} CarriageReturnDropped(line: string, acc: string)
    requires '\n' !in line
    ensures LinesFrom(line + "\r\n", acc) == [acc + line]
  {
    var t := line + "\r\n";
    if line == "" {
      assert t[0] == '\r' && t[1..] == "\n" && t[1..][1..] == "";
      assert acc + line == acc && (acc + ['\r'])[..|acc|] == acc;
      assert LinesFrom("\n", acc + ['\r']) == [acc] + LinesFrom("", "");
    } else {
      assert t[0] == line[0] && t[0] in line;
      assert t[1..] == line[1..] + "\r\n";
      assert (acc + [line[0]]) + line[1..] == acc + line;
      CarriageReturnDropped(line[1..], acc + [line[0]]);
    }
  }

  lemma {:induction false} LinesAppend(text: string, line: string, acc: string)
    requires text == "" ==> acc == ""
    requires text != "" ==> text[|text| - 1] == '\n'
    requires '\n' !in line && '\r' !in line
    ensures LinesFrom(text + line + "\n", acc) == LinesFrom(text, acc) + [line]
  {
    var t := text + line + "\n";
    if text == "" {
      assert t == line + "\n";
      if line != "" {
        assert line[|line| - 1] in line;
      }
      assert "" + line == line;
      LinesOfOne(line, "");
    } else {
      assert t[1..] == text[1..] + line + "\n";
      if text[0] == '\n' {
        LinesAppend(text[1..], line, "");
      } else {
        LinesAppend(text[1..], line, acc + [text[0]]);
      }
    }
  }

  /** Reading back a written file gives one printed line per entry, in order. */
  lemma {:induction false} LinesOfText(c: Codec, es: seq<AuditEntry>)
    requires ValidCodec(c)
    ensures |Lines(Text(c, es))| == |es|
    ensures forall i :: 0 <= i < |es| ==> Lines(Text(c, es))[i] == c.toJson(es[i])
    ensures es != [] ==> Text(c, es)[|Text(c, es)| - 1] == '\n'
  {
    if es != [] {
      var front, last := es[..|es| - 1], es[|es| - 1];
      LinesOfText(c, front);
      if front == [] {
        assert Text(c, front) == "";
      }
      assert Text(c, es) == Text(c, front) + c.toJson(last) + "\n";
      LinesAppend(Text(c, front), c.toJson(last), "");
    }
  }

  lemma {:induction false} TextAppend(c: Codec, a: seq<AuditEntry>, b: seq<AuditEntry>)
    ensures Text(c, a + b) == Text(c, a) + Text(c, b)
  {
    if b == [] {
      assert a + b == a;
    } else {
      var front := b[..|b| - 1];
      TextAppend(c, a, front);
      assert (a + b)[..|a + b| - 1] == a + front;
    }
  }
}
