/** Base64 against its standard. */
module Base64Standard {
  import opened Prelude
  import opened Base64

  /** Table 1 of RFC 4648, by the characters' ASCII numbers: A to Z, a to z, 0 to 9, plus and slash. */
  predicate Stands(n: nat, code: int) {
    || (n < 26 && code == 65 + n) || (26 <= n < 52 && code == 97 + n - 26) || (52 <= n < 62 && code == 48 + n - 52)
    || (n == 62 && code == 43) || (n == 63 && code == 47)
  }

  /** The encoders' letters are the table's, and the decoder gives each its own number and no other
      character any. */
  lemma LettersAreTheAlphabet(n: nat, c: Byte)
    requires n < 64
    ensures Stands(n, Letter(n) as int) && (Value(c) == Some(n) <==> Stands(n, c as int))
  {
  }

  /** A character a text may hold: of the table, or white space as the C library has it. */
  predicate Known(c: Byte) {
    var code := c as int;
    || 65 <= code <= 90 || 97 <= code <= 122 || 48 <= code <= 57 || code == 43 || code == 47
    || code in {9, 10, 11, 12, 13, 32}
  }

  /** The text up to the first padding, or all of it. */
  function Unpadded(text: Bytes): Bytes {
    if text == [] || text[0] == '=' then [] else [text[0]] + Unpadded(text[1..])
  }

  lemma KnownExactly(c: Byte)
    ensures Known(c) <==> Space(c) || Value(c).Some?
  {
  }

  lemma KnownFirst(c: Byte, rest: Bytes)
    ensures (forall d :: d in [c] + rest ==> Known(d)) <==> Known(c) && forall d :: d in rest ==> Known(d)
  {
    hide Known;
    assert c in [c] + rest && forall d :: d in rest ==> d in [c] + rest;
  }

  lemma {:induction false} DecodesFromExactly(text: Bytes, buffer: uint32, bits: nat)
    requires bits in {0, 2, 4, 6}
    ensures DecodeFrom(text, buffer, bits).Some? <==> forall c :: c in Unpadded(text) ==> Known(c)
    decreases |text|
  {
    assert !Space('=');
    hide Known, Value, Space, ByteOf, Shifted;
    if text != [] && text[0] != '=' {
      var c := text[0];
      KnownExactly(c);
      KnownFirst(c, Unpadded(text[1..]));
      if Space(c) {
        DecodesFromExactly(text[1..], buffer, bits);
      } else if Value(c).Some? {
        var next := (buffer * 64 + Value(c).value) % TWO_32;
        DecodesFromExactly(text[1..], next, if bits + 6 >= 8 then bits - 2 else bits + 6);
      }
    }
  }

  /** A text decodes exactly when all before its first padding are letters of the table and white
      space. */
  lemma DecodesExactly(text: Bytes)
    ensures Decode(text).Some? <==> forall c :: c in Unpadded(text) ==> Known(c)
  {
    DecodesFromExactly(text, 0, 0);
  }

  lemma FirstGroup(a: Byte, b: Byte, c: Byte, rest: Bytes)
    ensures var v := Group(a, b, c);
      Encode([a, b, c] + rest) == [Letter(Sextet(v, 0)), Letter(Sextet(v, 1)), Letter(Sextet(v, 2)), Letter(Sextet(v, 3))] + Encode(rest)
  {
    hide Letter, Sextet;
    assert ([a, b, c] + rest)[3..] == rest;
  }

  lemma LastGroup(a: Byte, b: Byte)
    ensures var v := Group(a, '\0', '\0'); Encode([a]) == [Letter(Sextet(v, 0)), Letter(Sextet(v, 1)), '=', '=']
    ensures var v := Group(a, b, '\0'); Encode([a, b]) == [Letter(Sextet(v, 0)), Letter(Sextet(v, 1)), Letter(Sextet(v, 2)), '=']
  {
    hide Letter, Sextet;
    NoBytes();
  }

  /** Section 10 of RFC 4648. */
  lemma TestVectors()
    ensures Encode(['f']) == ['Z', 'g', '=', '='] && Encode(['f', 'o']) == ['Z', 'm', '8', '=']
    ensures Encode(['f', 'o', 'o']) == ['Z', 'm', '9', 'v']
    ensures Encode(['f', 'o', 'o', 'b', 'a', 'r']) == ['Z', 'm', '9', 'v', 'Y', 'm', 'F', 'y']
  {
    hide Encode;
    NoBytes();
    LastGroup('f', 'o');
    FirstGroup('f', 'o', 'o', []);
    FirstGroup('b', 'a', 'r', []);
    FirstGroup('f', 'o', 'o', ['b', 'a', 'r']);
    assert ['f', 'o', 'o'] + [] == ['f', 'o', 'o'] && ['b', 'a', 'r'] + [] == ['b', 'a', 'r'];
    assert ['f', 'o', 'o'] + ['b', 'a', 'r'] == ['f', 'o', 'o', 'b', 'a', 'r'];
    hide Group;
    assert Group('f', '\0', '\0') == 0x66_0000 && Group('f', 'o', '\0') == 0x66_6F00 by { GroupsSpelled(); }
    assert Group('f', 'o', 'o') == 0x66_6F6F && Group('b', 'a', 'r') == 0x62_6172 by { GroupsSpelled(); }
  }

  lemma GroupsSpelled()
    ensures Group('f', '\0', '\0') == 0x66_0000 && Group('f', 'o', '\0') == 0x66_6F00
    ensures Group('f', 'o', 'o') == 0x66_6F6F && Group('b', 'a', 'r') == 0x62_6172
  {
  }
}
