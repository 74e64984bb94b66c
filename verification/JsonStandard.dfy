/** JSON text against its standards. */
module JsonStandard {
  import opened Prelude
  import opened JsonText

  /** Section 3 of RFC 3629: the number a character's bytes carry. */
  function CodeOf(s: Bytes): int
    requires 1 <= |s| <= 4
  {
    if |s| == 1 then s[0] as int
    else if |s| == 2 then (s[0] as int - 0xC0) * 0x40 + (s[1] as int - 0x80)
    else if |s| == 3 then (s[0] as int - 0xE0) * 0x1000 + (s[1] as int - 0x80) * 0x40 + (s[2] as int - 0x80)
    else (s[0] as int - 0xF0) * 0x4_0000 + (s[1] as int - 0x80) * 0x1000 + (s[2] as int - 0x80) * 0x40 + (s[3] as int - 0x80)
  }

  /** What both decoders write for a code point is its one sequence of the table. */
  lemma Utf8IsTheTable(code: nat)
    requires code < 0x11_0000 && !(0xD800 <= code < 0xE000)
    ensures TableSequence(Utf8(code)) && CodeOf(Utf8(code)) == code
  {
    if code >= 0x1_0000 {
      Four(code);
    } else if code >= 0x800 {
      Three(code);
    }
  }

  lemma Three(code: nat)
    requires 0x800 <= code < 0x1_0000
    ensures code / 0x1000 * 0x1000 + code / 64 % 64 * 64 + code % 64 == code
  {
    assert code / 64 / 64 == code / 0x1000;
  }

  lemma Four(code: nat)
    requires 0x1_0000 <= code < 0x11_0000
    ensures code / 0x4_0000 * 0x4_0000 + code / 0x1000 % 64 * 0x1000 + code / 64 % 64 * 64 + code % 64 == code
  {
    assert code / 64 / 64 == code / 0x1000 && code / 0x1000 / 64 == code / 0x4_0000;
  }

  /** Section 7 of RFC 8259: the two-character escapes. */
  lemma EscapesAreJson(c: Byte)
    ensures Unescaped(c) ==
      if c == '"' then Some('"') else if c == '\\' then Some('\\') else if c == '/' then Some('/')
      else if c == 'b' then Some(0x08 as char) else if c == 'f' then Some(0x0C as char)
      else if c == 'n' then Some(0x0A as char) else if c == 'r' then Some(0x0D as char)
      else if c == 't' then Some(0x09 as char) else None
  {
  }

  /** What the encoder writes holds no control character, and a quote or a backslash only as an
      escape is begun or meant: in place of each control character, of a quote and of a backslash
      stands its shortest escape. */
  lemma EncodedEscapes(s: Bytes, at: nat)
    requires at < |s|
    ensures s[at] == '"' ==> EscapeAt(s, at) == ['\\', '"']
    ensures s[at] == '\\' ==> EscapeAt(s, at) == ['\\', '\\']
    ensures s[at] as int == 0x08 ==> EscapeAt(s, at) == ['\\', 'b']
    ensures s[at] as int == 0x09 ==> EscapeAt(s, at) == ['\\', 't']
    ensures s[at] as int == 0x0A ==> EscapeAt(s, at) == ['\\', 'n']
    ensures s[at] as int == 0x0C ==> EscapeAt(s, at) == ['\\', 'f']
    ensures s[at] as int == 0x0D ==> EscapeAt(s, at) == ['\\', 'r']
    ensures s[at] as int == 0x1B ==> EscapeAt(s, at) == ['\\', 'u', '0', '0', '1', 'b']
    ensures 0x20 <= s[at] as int < 0x7F && s[at] != '"' && s[at] != '\\' ==> EscapeAt(s, at) == [s[at]]
    ensures SequenceLength(s, at) > 1 ==> EscapeAt(s, at) == s[at..at + SequenceLength(s, at)]
  {
    Ascii(s, at);
    hide SequenceLength;
  }
}
