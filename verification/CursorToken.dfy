/**
 Cursor tokens: a key of strings written as a JSON array (section 7 of RFC 8259) and read back.
 Text is a sequence of code points; lone surrogates are allowed, as in a Python string.
 */
module CursorToken {
  import opened Prelude

  type Code = c: int | 0 <= c < 0x110000
  type Text = seq<Code>

  const MAX_PARTS := 3
  const MAX_PART_CHARS := 4096
  const MAX_TOKEN_CHARS := 2 + MAX_PARTS * (6 * MAX_PART_CHARS + 3)

  const QUOTE: Code := 0x22
  const COMMA: Code := 0x2c
  const OPEN: Code := 0x5b
  const BACKSLASH: Code := 0x5c
  const CLOSE: Code := 0x5d
  const ZERO: Code := 0x30
  const LETTER_U: Code := 0x75

  // ------------------------------------------------------------------ writing

  /** The letter of a two-character escape, 0 if the character has none. */
  function ShortEscape(c: Code): Code {
    if c == QUOTE || c == BACKSLASH then c
    else if c == 8 then 0x62 else if c == 9 then 0x74 else if c == 10 then 0x6e
    else if c == 12 then 0x66 else if c == 13 then 0x72 else 0
  }

  /** A hexadecimal digit in lower case. */
  function HexDigit(d: int): Code
    requires 0 <= d < 16
  {
    if d < 10 then 0x30 + d else 0x61 + d - 10
  }

  /** A character inside a JSON string; only quotes, backslashes and control characters are escaped. */
  function Escape(c: Code): Text {
    if ShortEscape(c) != 0 then [BACKSLASH, ShortEscape(c)]
    else if c < 0x20 then [BACKSLASH, LETTER_U, ZERO, ZERO, HexDigit(c / 16), HexDigit(c % 16)]
    else [c]
  }

  function EscapeAll(s: Text): Text {
    if s == [] then [] else Escape(s[0]) + EscapeAll(s[1..])
  }

  /** The items of an array, from an opening quote to the closing bracket. */
  function Items(parts: seq<Text>): Text
    requires parts != []
  {
    [QUOTE] + (EscapeAll(parts[0]) + ([QUOTE] + if |parts| == 1 then [CLOSE] else [COMMA] + Items(parts[1..])))
  }

  predicate Accepted(parts: seq<Text>) {
    |parts| <= MAX_PARTS && forall i :: 0 <= i < |parts| ==> |parts[i]| <= MAX_PART_CHARS
  }

  function EncodeToken(parts: seq<Text>): Option<Text> {
    if !Accepted(parts) then None
    else Some([OPEN] + if parts == [] then [CLOSE] else Items(parts))
  }

  // ------------------------------------------------------------------ reading

  predicate Space(c: Code) { c in {0x20, 9, 10, 13} }

  function SkipSpace(t: Text): Text {
    if t != [] && Space(t[0]) then SkipSpace(t[1..]) else t
  }

  function HexValue(c: Code): (value: Option<int>)
    ensures value.Some? ==> 0 <= value.value < 16
  {
    if 0x30 <= c <= 0x39 then Some(c - 0x30)
    else if 0x61 <= c <= 0x66 then Some(c - 0x61 + 10)
    else if 0x41 <= c <= 0x46 then Some(c - 0x41 + 10)
    else None
  }

  /** Four hexadecimal digits. */
  function Hex4(t: Text): (value: Option<Code>)
    ensures value.Some? ==> |t| >= 4 && value.value < 0x10000
  {
    if |t| < 4 || HexValue(t[0]).None? || HexValue(t[1]).None? || HexValue(t[2]).None? || HexValue(t[3]).None? then None
    else
      var a, b, c, d := HexValue(t[0]).value, HexValue(t[1]).value, HexValue(t[2]).value, HexValue(t[3]).value;
      Some(a * 0x1000 + b * 0x100 + c * 0x10 + d)
  }

  /** The text behind a backslash: the character it stands for, and what follows. A high surrogate
      escape joins with a low one behind it. */
  function ReadEscape(t: Text): (read: Option<(Code, Text)>)
    ensures read.Some? ==> |read.value.1| < |t|
  {
    if t == [] then None
    else if t[0] == QUOTE || t[0] == BACKSLASH || t[0] == 0x2f then Some((t[0], t[1..]))
    else if t[0] == 0x62 then Some((8, t[1..]))
    else if t[0] == 0x66 then Some((12, t[1..]))
    else if t[0] == 0x6e then Some((10, t[1..]))
    else if t[0] == 0x72 then Some((13, t[1..]))
    else if t[0] == 0x74 then Some((9, t[1..]))
    else if t[0] != LETTER_U || Hex4(t[1..]).None? then None
    else
      var c := Hex4(t[1..]).value;
      var rest := t[5..];
      if 0xd800 <= c < 0xdc00 && |rest| >= 2 && rest[0] == BACKSLASH && rest[1] == LETTER_U
         && Hex4(rest[2..]).Some? && 0xdc00 <= Hex4(rest[2..]).value < 0xe000
      then Some((0x10000 + (c - 0xd800) * 0x400 + (Hex4(rest[2..]).value - 0xdc00), rest[6..]))
      else Some((c, rest))
  }

  /** The text behind an opening quote: the string's characters, and what follows its closing quote. */
  function ReadString(t: Text): (read: Option<(Text, Text)>)
    ensures read.Some? ==> |read.value.1| < |t|
    decreases |t|
  {
    if t == [] then None
    else if t[0] == QUOTE then Some(([], t[1..]))
    else if t[0] == BACKSLASH then
      var escape := ReadEscape(t[1..]);
      if escape.None? then None else Prepend(escape.value.0, ReadString(escape.value.1))
    else if t[0] < 0x20 then None
    else Prepend(t[0], ReadString(t[1..]))
  }

  function Prepend(c: Code, read: Option<(Text, Text)>): Option<(Text, Text)> {
    if read.None? then None else Some(([c] + read.value.0, read.value.1))
  }

  /** The items of an array of strings, to its closing bracket. */
  function ReadItems(t: Text): (read: Option<(seq<Text>, Text)>)
    decreases |t|
  {
    if t == [] || t[0] != QUOTE || ReadString(t[1..]).None? then None
    else
      var (part, behind) := ReadString(t[1..]).value;
      SkipShortens(behind);
      var after := SkipSpace(behind);
      if after == [] then None
      else if after[0] == CLOSE then Some(([part], after[1..]))
      else if after[0] != COMMA then None
      else
        SkipShortens(after[1..]);
        var more := ReadItems(SkipSpace(after[1..]));
        if more.None? then None else Some(([part] + more.value.0, more.value.1))
  }

  lemma SkipShortens(t: Text)
    ensures |SkipSpace(t)| <= |t|
  {
  }

  function ReadArray(t: Text): Option<(seq<Text>, Text)> {
    if t == [] || t[0] != OPEN then None
    else
      var inside := SkipSpace(t[1..]);
      if inside != [] && inside[0] == CLOSE then Some(([], inside[1..])) else ReadItems(inside)
  }

  /** The parts of a token; None for every refusal. JSON of any other shape is refused too. */
  function DecodeToken(token: Text, arity: nat): Option<seq<Text>> {
    if |token| > MAX_TOKEN_CHARS then None
    else
      var read := ReadArray(SkipSpace(token));
      if read.None? || SkipSpace(read.value.1) != [] || |read.value.0| != arity then None
      else Some(read.value.0)
  }

  // ------------------------------------------------------------------ the round trip

  lemma EscapeLength(c: Code)
    ensures 1 <= |Escape(c)| <= 6
  {
  }

  lemma {:induction false} EscapeAllLength(s: Text)
    ensures |EscapeAll(s)| <= 6 * |s|
  {
    hide Escape;
    if s != [] { EscapeAllLength(s[1..]); EscapeLength(s[0]); }
  }

  lemma {:induction false} ItemsLength(parts: seq<Text>)
    requires parts != [] && forall i :: 0 <= i < |parts| ==> |parts[i]| <= MAX_PART_CHARS
    ensures |Items(parts)| <= |parts| * (6 * MAX_PART_CHARS + 3)
  {
    hide EscapeAll;
    EscapeAllLength(parts[0]);
    if |parts| > 1 { ItemsLength(parts[1..]); }
  }

  /** Reading what was written for one character gives the character back. */
  lemma EscapeReads(c: Code, rest: Text)
    ensures ReadString(Escape(c) + rest) == Prepend(c, ReadString(rest))
  {
    var t := Escape(c) + rest;
    if ShortEscape(c) != 0 {
      assert t[1..][1..] == rest;
    } else if c < 0x20 {
      assert t[1..][5..] == rest;
      assert t[1..][1..][..4] == [ZERO, ZERO, HexDigit(c / 16), HexDigit(c % 16)];
      HexReads(c, t[1..][1..]);
      assert ReadEscape(t[1..]) == Some((c, rest));
    } else {
      assert t[1..] == rest;
    }
  }

  lemma HexReads(c: Code, t: Text)
    requires c < 0x20 && |t| >= 4 && t[..4] == [ZERO, ZERO, HexDigit(c / 16), HexDigit(c % 16)]
    ensures Hex4(t) == Some(c)
  {
    assert t[0] == t[..4][0] && t[1] == t[..4][1] && t[2] == t[..4][2] && t[3] == t[..4][3];
  }

  lemma EscapeStep(s: Text, rest: Text)
    requires s != []
    ensures Escape(s[0]) + (EscapeAll(s[1..]) + rest) == EscapeAll(s) + rest
  {
    hide Escape;
    var first, more := Escape(s[0]), EscapeAll(s[1..]);
    assert EscapeAll(s) == first + more;
    assert first + (more + rest) == (first + more) + rest;
  }

  lemma {:induction false} StringReads(s: Text, rest: Text)
    ensures ReadString(EscapeAll(s) + ([QUOTE] + rest)) == Some((s, rest))
  {
    hide Escape;
    if s == [] {
      assert EscapeAll(s) + ([QUOTE] + rest) == [QUOTE] + rest;
      assert ([QUOTE] + rest)[1..] == rest;
    } else {
      StringReads(s[1..], rest);
      EscapeReads(s[0], EscapeAll(s[1..]) + ([QUOTE] + rest));
      EscapeStep(s, [QUOTE] + rest);
      assert [s[0]] + s[1..] == s;
    }
  }

  /** Reading the last item of an array. */
  lemma LastItem(t: Text, part: Text)
    requires t != [] && t[0] == QUOTE && ReadString(t[1..]) == Some((part, [CLOSE]))
    ensures ReadItems(t) == Some(([part], []))
  {
    hide ReadString;
    assert SkipSpace([CLOSE]) == [CLOSE] && [CLOSE][1..] == [];
  }

  /** Reading an item that another follows. */
  lemma ItemThenMore(t: Text, part: Text, more: Text, parts: seq<Text>)
    requires t != [] && t[0] == QUOTE && ReadString(t[1..]) == Some((part, [COMMA] + more))
    requires more != [] && more[0] == QUOTE && ReadItems(more) == Some((parts, []))
    ensures ReadItems(t) == Some(([part] + parts, []))
  {
    hide ReadString;
    var rest := [COMMA] + more;
    assert SkipSpace(rest) == rest && rest[1..] == more && SkipSpace(more) == more;
  }

  lemma {:induction false} ItemsRead(parts: seq<Text>)
    requires parts != []
    ensures ReadItems(Items(parts)) == Some((parts, []))
    decreases |parts|
  {
    hide ReadString, ReadItems, EscapeAll;
    var rest := if |parts| == 1 then [CLOSE] else [COMMA] + Items(parts[1..]);
    StringReads(parts[0], rest);
    assert Items(parts)[1..] == EscapeAll(parts[0]) + ([QUOTE] + rest);
    if |parts| == 1 {
      LastItem(Items(parts), parts[0]);
      assert parts == [parts[0]];
    } else {
      ItemsRead(parts[1..]);
      ItemsStart(parts[1..]);
      ItemThenMore(Items(parts), parts[0], Items(parts[1..]), parts[1..]);
      assert parts == [parts[0]] + parts[1..];
    }
  }

  /** Every key that is accepted, whatever its characters, fits the token limit and reads back exactly. */
  lemma RoundTrip(parts: seq<Text>)
    requires Accepted(parts)
    ensures EncodeToken(parts).Some? && |EncodeToken(parts).value| <= MAX_TOKEN_CHARS
    ensures DecodeToken(EncodeToken(parts).value, |parts|) == Some(parts)
  {
    hide ReadItems, Items;
    var token := EncodeToken(parts).value;
    if parts == [] {
      assert token == [OPEN, CLOSE];
      assert token[1..] == [CLOSE];
    } else {
      ItemsLength(parts);
      ItemsRead(parts);
      assert token[1..] == Items(parts);
      ItemsStart(parts);
    }
  }

  /** A key is accepted exactly with at most three parts of at most 4096 characters. */
  lemma AcceptedIff(parts: seq<Text>)
    ensures EncodeToken(parts).Some? <==> |parts| <= 3 && forall i :: 0 <= i < |parts| ==> |parts[i]| <= 4096
  {
  }

  /** A token is read only within the limit, and as the number of parts asked for. */
  lemma ReadIsBounded(token: Text, arity: nat)
    requires DecodeToken(token, arity).Some?
    ensures |token| <= 2 + 3 * (6 * 4096 + 3) && |DecodeToken(token, arity).value| == arity
  {
  }

  const SAMPLE: Text := [0x22, 0x0a, 0x1f, 0x2f, 0x1f600]
  const SAMPLE_ESCAPED: Text := [0x5c, 0x22, 0x5c, 0x6e, 0x5c, 0x75, 0x30, 0x30, 0x31, 0x66, 0x2f, 0x1f600]

  lemma SampleIsEscaped()
    ensures EscapeAll(SAMPLE) == SAMPLE_ESCAPED
  {
    var a: Text, b: Text, c: Text, d: Text := [0x0a, 0x1f, 0x2f, 0x1f600], [0x1f, 0x2f, 0x1f600], [0x2f, 0x1f600], [0x1f600];
    assert SAMPLE[1..] == a && a[1..] == b && b[1..] == c && c[1..] == d && d[1..] == [];
    assert EscapeAll(d) == [0x1f600];
    assert EscapeAll(c) == [0x2f, 0x1f600];
    assert EscapeAll(b) == [0x5c, 0x75, 0x30, 0x30, 0x31, 0x66, 0x2f, 0x1f600];
    assert EscapeAll(a) == [0x5c, 0x6e] + EscapeAll(b);
    assert EscapeAll(SAMPLE) == [0x5c, 0x22] + EscapeAll(a);
  }

  /** One part with a quote, a newline, the control character 31, a slash and a character beyond 16 bits. */
  lemma WrittenAsJson()
    ensures EncodeToken([SAMPLE])
            == Some([0x5b, 0x22, 0x5c, 0x22, 0x5c, 0x6e, 0x5c, 0x75, 0x30, 0x30, 0x31, 0x66, 0x2f, 0x1f600, 0x22, 0x5d])
  {
    SampleIsEscaped();
    hide EscapeAll;
    assert |SAMPLE| == 5 && [SAMPLE][0] == SAMPLE;
    assert Items([SAMPLE]) == [QUOTE] + (SAMPLE_ESCAPED + ([QUOTE] + [CLOSE]));
    var text: Text := [0x5b, 0x22, 0x5c, 0x22, 0x5c, 0x6e, 0x5c, 0x75, 0x30, 0x30, 0x31, 0x66, 0x2f, 0x1f600, 0x22, 0x5d];
    assert [OPEN] + Items([SAMPLE]) == text;
    assert Accepted([SAMPLE]);
  }

  lemma ItemsStart(parts: seq<Text>)
    requires parts != []
    ensures Items(parts) != [] && Items(parts)[0] == QUOTE
  {
  }

  /** Two accepted keys never share a token. */
  lemma TokensAreDistinct(a: seq<Text>, b: seq<Text>)
    requires Accepted(a) && Accepted(b) && EncodeToken(a) == EncodeToken(b)
    ensures a == b
  {
    RoundTrip(a);
    RoundTrip(b);
    SameArity(EncodeToken(a).value, |a|, |b|);
  }

  lemma SameArity(token: Text, m: nat, n: nat)
    requires DecodeToken(token, m).Some? && DecodeToken(token, n).Some?
    ensures m == n
  {
  }

  // ------------------------------------------------------------------ what else is read

  /** Text spelled the one way the encoder spells it: outside strings only brackets, commas and quotes,
      and inside strings only the encoder's own escapes. */
  predicate PlainOutside(t: Text)
    decreases |t|
  {
    t == []
    || (t[0] == QUOTE && PlainInside(t[1..]))
    || (t[0] in {OPEN, CLOSE, COMMA} && PlainOutside(t[1..]))
  }

  predicate PlainInside(t: Text)
    decreases |t|
  {
    t != []
    && (if t[0] == QUOTE then PlainOutside(t[1..])
        else if t[0] != BACKSLASH then PlainInside(t[1..])
        else if |t| >= 2 && t[1] in {QUOTE, BACKSLASH, 0x62, 0x66, 0x6e, 0x72, 0x74} then PlainInside(t[2..])
        else |t| >= 6 && PlainHex(t[1..6]) && PlainInside(t[6..]))
  }

  /** \u00 and two lower-case digits of a control character that has no shorter escape. */
  predicate PlainHex(t: Text)
    requires |t| == 5
  {
    t[0] == LETTER_U && t[1] == ZERO && t[2] == ZERO && t[3] in {ZERO, 0x31}
    && (0x30 <= t[4] <= 0x39 || 0x61 <= t[4] <= 0x66)
    && ShortEscape(Control(t[3], t[4])) == 0
  }

  function Control(hi: Code, lo: Code): Code
    requires hi in {ZERO, 0x31} && (0x30 <= lo <= 0x39 || 0x61 <= lo <= 0x66)
  {
    (hi - ZERO) * 16 + (if lo <= 0x39 then lo - 0x30 else lo - 0x61 + 10)
  }

  lemma EscapeIsPlain(c: Code, rest: Text)
    ensures PlainInside(Escape(c) + rest) <==> PlainInside(rest)
  {
    hide PlainOutside;
    var t := Escape(c) + rest;
    if ShortEscape(c) != 0 {
      assert t[2..] == rest;
    } else if c < 0x20 {
      assert t[1..6] == [LETTER_U, ZERO, ZERO, HexDigit(c / 16), HexDigit(c % 16)];
      assert t[6..] == rest;
    } else {
      assert t[1..] == rest;
    }
  }

  lemma {:induction false} StringIsPlain(s: Text, rest: Text)
    ensures PlainInside(EscapeAll(s) + ([QUOTE] + rest)) <==> PlainOutside(rest)
  {
    hide Escape;
    if s == [] {
      assert EscapeAll(s) + ([QUOTE] + rest) == [QUOTE] + rest;
      assert ([QUOTE] + rest)[1..] == rest;
    } else {
      StringIsPlain(s[1..], rest);
      EscapeIsPlain(s[0], EscapeAll(s[1..]) + ([QUOTE] + rest));
      EscapeStep(s, [QUOTE] + rest);
    }
  }

  lemma {:induction false} ItemsArePlain(parts: seq<Text>)
    requires parts != []
    ensures PlainOutside(Items(parts))
    decreases |parts|
  {
    hide EscapeAll, PlainInside;
    var rest := if |parts| == 1 then [CLOSE] else [COMMA] + Items(parts[1..]);
    StringIsPlain(parts[0], rest);
    assert Items(parts)[1..] == EscapeAll(parts[0]) + ([QUOTE] + rest);
    if |parts| > 1 {
      ItemsArePlain(parts[1..]);
      assert rest[1..] == Items(parts[1..]);
    } else {
      assert rest[1..] == [];
    }
  }

  /** A plainly spelled escape is the one the encoder writes for the character read. */
  lemma PlainEscapeIsEscape(t: Text)
    requires t != [] && t[0] == BACKSLASH && PlainInside(t)
    ensures ReadEscape(t[1..]).Some?
    ensures var (c, rest) := ReadEscape(t[1..]).value; t == Escape(c) + rest && PlainInside(rest)
  {
    hide PlainOutside;
    if |t| >= 2 && t[1] in {QUOTE, BACKSLASH, 0x62, 0x66, 0x6e, 0x72, 0x74} {
      assert t == t[..2] + t[2..] && t[1..][1..] == t[2..];
      assert t[..2] == [BACKSLASH, t[1]];
    } else {
      var c := Control(t[4], t[5]);
      assert t == t[..6] + t[6..] && t[1..][5..] == t[6..];
      assert t[..6] == [BACKSLASH] + t[1..6];
      PlainHexReads(t[1..][1..], c, t[4], t[5]);
      assert t[1..6] == [LETTER_U, ZERO, ZERO, t[4], t[5]];
    }
  }

  lemma PlainHexReads(t: Text, c: Code, hi: Code, lo: Code)
    requires |t| >= 4 && t[0] == ZERO && t[1] == ZERO && t[2] == hi && t[3] == lo
    requires hi in {ZERO, 0x31} && (0x30 <= lo <= 0x39 || 0x61 <= lo <= 0x66) && c == Control(hi, lo)
    ensures Hex4(t) == Some(c) && c < 0x20 && HexDigit(c / 16) == hi && HexDigit(c % 16) == lo
  {
  }

  /** A character read and a string read behind it. */
  lemma ReadOneMore(c: Code, behind: Text)
    requires Prepend(c, ReadString(behind)).Some?
    ensures ReadString(behind).Some?
    ensures var (s, rest) := Prepend(c, ReadString(behind)).value;
            s != [] && s[0] == c && s[1..] == ReadString(behind).value.0 && rest == ReadString(behind).value.1
  {
    hide ReadString;
  }

  lemma {:induction false} PlainStringIsEscaped(t: Text)
    requires ReadString(t).Some? && PlainInside(t)
    ensures var (s, rest) := ReadString(t).value; t == EscapeAll(s) + ([QUOTE] + rest) && PlainOutside(rest)
    decreases |t|
  {
    hide Escape, ReadEscape, EscapeAll, Prepend, PlainHex;
    var (s, rest) := ReadString(t).value;
    if t[0] == QUOTE {
      assert t == [QUOTE] + t[1..];
      NothingEscaped();
    } else {
      var c, behind := t[0], t[1..];
      if t[0] == BACKSLASH {
        PlainEscapeIsEscape(t);
        c, behind := ReadEscape(t[1..]).value.0, ReadEscape(t[1..]).value.1;
      } else {
        EscapeOfItself(c);
        assert t == [c] + behind;
      }
      ReadOneMore(c, behind);
      PlainStringIsEscaped(behind);
      EscapeStep(s, [QUOTE] + rest);
    }
  }

  lemma NothingEscaped()
    ensures EscapeAll([]) == []
  {
  }

  lemma EscapeOfItself(c: Code)
    requires c >= 0x20 && c != QUOTE && c != BACKSLASH
    ensures Escape(c) == [c]
  {
  }

  lemma PlainHasNoSpace(t: Text)
    requires PlainOutside(t)
    ensures SkipSpace(t) == t
  {
  }

  lemma {:induction false} PlainItemsAreItems(t: Text)
    requires ReadItems(t).Some? && PlainOutside(t)
    ensures var (parts, rest) := ReadItems(t).value; parts != [] && t == Items(parts) + rest && PlainOutside(rest)
    decreases |t|
  {
    hide EscapeAll, ReadString, PlainInside;
    PlainStringIsEscaped(t[1..]);
    var (part, behind) := ReadString(t[1..]).value;
    PlainHasNoSpace(behind);
    var (parts, rest) := ReadItems(t).value;
    assert t == [QUOTE] + (EscapeAll(part) + ([QUOTE] + behind));
    if behind[0] == CLOSE {
      assert behind == [CLOSE] + rest;
      LastItemText(part, parts, rest);
    } else {
      PlainHasNoSpace(behind[1..]);
      PlainItemsAreItems(behind[1..]);
      assert parts[1..] == ReadItems(behind[1..]).value.0;
      assert behind == [COMMA] + (Items(parts[1..]) + rest);
      MoreItemsText(part, parts, rest);
    }
  }

  lemma LastItemText(part: Text, parts: seq<Text>, rest: Text)
    requires parts == [part]
    ensures Items(parts) + rest == [QUOTE] + (EscapeAll(part) + ([QUOTE] + ([CLOSE] + rest)))
  {
    hide EscapeAll;
    Associates([QUOTE], EscapeAll(part), [QUOTE], [CLOSE], rest);
  }

  lemma MoreItemsText(part: Text, parts: seq<Text>, rest: Text)
    requires |parts| > 1 && parts[0] == part
    ensures Items(parts) + rest == [QUOTE] + (EscapeAll(part) + ([QUOTE] + ([COMMA] + (Items(parts[1..]) + rest))))
  {
    ItemsOfMore(part, parts);
    hide EscapeAll, Items;
    Associates([QUOTE], EscapeAll(part), [QUOTE], [COMMA] + Items(parts[1..]), rest);
    assert ([COMMA] + Items(parts[1..])) + rest == [COMMA] + (Items(parts[1..]) + rest);
  }

  lemma ItemsOfMore(part: Text, parts: seq<Text>)
    requires |parts| > 1 && parts[0] == part
    ensures Items(parts) == [QUOTE] + (EscapeAll(part) + ([QUOTE] + ([COMMA] + Items(parts[1..]))))
  {
    hide EscapeAll;
  }

  lemma Associates(a: Text, b: Text, c: Text, d: Text, e: Text)
    ensures (a + (b + (c + d))) + e == a + (b + (c + (d + e)))
  {
    assert (c + d) + e == c + (d + e);
    assert (b + (c + d)) + e == b + ((c + d) + e);
  }

  lemma ItemsNeedText(t: Text)
    ensures ReadItems(t).Some? ==> t != []
  {
  }

  /** Not everything that reads was written by the encoder. A token that reads as `parts` is exactly the
      encoder's if and only if it is plainly spelled and the parts are within the encoder's limits. */
  lemma ReadTokenIsWrittenIff(token: Text, parts: seq<Text>)
    requires DecodeToken(token, |parts|) == Some(parts)
    ensures EncodeToken(parts) == Some(token) <==> PlainOutside(token) && Accepted(parts)
  {
    hide ReadItems, Items, PlainInside;
    if PlainOutside(token) && Accepted(parts) {
      PlainHasNoSpace(token);
      PlainHasNoSpace(token[1..]);
      assert token == [OPEN] + token[1..];
      var (read, rest) := ReadArray(token).value;
      ItemsNeedText(token[1..]);
      if token[1] == CLOSE {
        assert token[1..] == [CLOSE] + token[2..] && token[1..][1..] == token[2..];
        PlainHasNoSpace(rest);
        assert token == [OPEN, CLOSE];
      } else {
        PlainItemsAreItems(token[1..]);
        PlainHasNoSpace(rest);
        assert token == [OPEN] + Items(parts);
      }
    }
    if EncodeToken(parts) == Some(token) {
      if parts != [] {
        ItemsArePlain(parts);
        assert token[1..] == Items(parts);
      } else {
        assert token[1..] == [CLOSE] && token[1..][1..] == [];
        assert PlainOutside(token[1..]);
      }
    }
  }

  /** For instance an empty array with a space in it, and the same letter spelled as an escape. */
  lemma ReadButNotWritten()
    ensures var spaced: Text := [OPEN, 0x20, CLOSE]; DecodeToken(spaced, 0) == Some([]) && EncodeToken([]) != Some(spaced)
    ensures var slash: Text := [OPEN, QUOTE, BACKSLASH, 0x2f, QUOTE, CLOSE];
            DecodeToken(slash, 1) == Some([[0x2f]]) && EncodeToken([[0x2f]]) != Some(slash)
  {
    var spaced: Text := [OPEN, 0x20, CLOSE];
    assert spaced[1..] == [0x20, CLOSE] && spaced[1..][1..] == [CLOSE] && [CLOSE][1..] == [];
    assert SkipSpace(spaced[1..]) == [CLOSE];
    var slash: Text := [OPEN, QUOTE, BACKSLASH, 0x2f, QUOTE, CLOSE];
    assert slash[1..] == [QUOTE, BACKSLASH, 0x2f, QUOTE, CLOSE];
    assert slash[1..][1..] == [BACKSLASH, 0x2f, QUOTE, CLOSE];
    var inside: Text, behind: Text := slash[1..][1..], [QUOTE, CLOSE];
    assert inside[1..] == [0x2f, QUOTE, CLOSE];
    assert inside[1..][1..] == behind;
    assert behind[1..] == [CLOSE];
    assert ReadString(behind) == Some(([], [CLOSE]));
    assert ReadEscape(inside[1..]) == Some((0x2f, behind));
    assert ReadString(inside) == Prepend(0x2f, ReadString(behind));
    var part: Text, none: Text := [0x2f], [];
    assert part + none == part;
    assert ReadString(inside) == Some(([0x2f], [CLOSE]));
    assert EncodeToken([[0x2f]]).value[2] == 0x2f;
  }
}
