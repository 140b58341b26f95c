/**
 * The JSON printer and parser of Python's standard library, as far as the dedup envelope needs
 * them: `json.dumps` with ASCII-only output (RFC 8259, sections 4, 5 and 7) and `json.loads`.
 *
 * A Python string is a sequence of code points, lone surrogates included.
 */
module Json {
  import opened Sequences

  type Code = c: int | 0 <= c < 0x11_0000

  type Text = seq<Code>

  datatype Json =
    | JNull
    | JBool(b: bool)
    | JNumber(text: Text)
    | JString(s: Text)
    | JArray(items: Items)
    | JObject(members: Members)

  datatype Items = NoItems | Items(head: Json, tail: Items)

  datatype Members = NoMembers | Members(key: Text, value: Json, rest: Members)

  const QUOTE: Code := 0x22
  const BACKSLASH: Code := 0x5c
  const LOWER_U: Code := 0x75
  const COMMA: Code := 0x2c
  const COLON: Code := 0x3a
  const SPACE: Code := 0x20
  const OPEN_BRACKET: Code := 0x5b
  const CLOSE_BRACKET: Code := 0x5d
  const OPEN_BRACE: Code := 0x7b
  const CLOSE_BRACE: Code := 0x7d

  /** An ASCII literal as code points. */
  function Ascii(s: string): (t: Text)
    ensures |t| == |s| && forall i :: 0 <= i < |s| ==> t[i] == s[i] as int
  {
    seq(|s|, i requires 0 <= i < |s| => s[i] as int)
  }

  // ---- Surrogates ----------------------------------------------------------------------------

  predicate High(c: Code) {
    0xd800 <= c <= 0xdbff
  }

  predicate Low(c: Code) {
    0xdc00 <= c <= 0xdfff
  }

  function Join(h: Code, l: Code): Code
    requires High(h) && Low(l)
  {
    0x1_0000 + (h - 0xd800) * 0x400 + (l - 0xdc00)
  }

  /** What a string becomes on its way through JSON: a high surrogate before a low one joins it. */
  function Joined(s: Text): Text {
    if s == [] then []
    else if |s| >= 2 && High(s[0]) && Low(s[1]) then [Join(s[0], s[1])] + Joined(s[2..])
    else [s[0]] + Joined(s[1..])
  }

  /** No high surrogate stands right before a low one. */
  predicate PairFree(s: Text) {
    forall i :: 0 <= i && i + 1 < |s| ==> !(High(s[i]) && Low(s[i + 1]))
  }

  lemma {:induction false} JoinedShorter(s: Text)
    ensures |Joined(s)| <= |s|
    ensures |Joined(s)| == |s| ==> PairFree(s) && Joined(s) == s
  {
    if s != [] {
      if |s| >= 2 && High(s[0]) && Low(s[1]) {
        JoinedShorter(s[2..]);
      } else {
        JoinedShorter(s[1..]);
        if |Joined(s)| == |s| {
          assert s == [s[0]] + s[1..];
          forall i | 0 <= i && i + 1 < |s|
            ensures !(High(s[i]) && Low(s[i + 1]))
          {
            if i > 0 {
              assert s[i] == s[1..][i - 1] && s[i + 1] == s[1..][i];
            }
          }
        }
      }
    }
  }

  /** A string survives exactly when it has no such pair; all strings of Unicode scalars do. */
  lemma {:induction false} JoinedIdentityIff(s: Text)
    ensures Joined(s) == s <==> PairFree(s)
  {
    JoinedShorter(s);
    if PairFree(s) && s != [] {
      assert PairFree(s[1..]);
      JoinedIdentityIff(s[1..]);
      assert s == [s[0]] + s[1..];
    }
  }

  // ---- Printing ------------------------------------------------------------------------------

  function HexDigit(n: int): Code
    requires 0 <= n < 16
  {
    if n < 10 then 0x30 + n else 0x61 + n - 10
  }

  function Unicode(n: int): (t: Text)
    requires 0 <= n < 0x1_0000
    ensures |t| == 6 && t[0] == BACKSLASH && t[1] == LOWER_U
  {
    [BACKSLASH, LOWER_U, HexDigit(n / 0x1000), HexDigit(n / 0x100 % 16), HexDigit(n / 16 % 16), HexDigit(n % 16)]
  }

  /** The two-character escapes; `None` for a character that has none. */
  function ShortEscape(c: Code): Option<Code> {
    if c == QUOTE || c == BACKSLASH then Some(c)
    else if c == 0x08 then Some(0x62)
    else if c == 0x0c then Some(0x66)
    else if c == 0x0a then Some(0x6e)
    else if c == 0x0d then Some(0x72)
    else if c == 0x09 then Some(0x74)
    else None
  }

  predicate Plain(c: Code) {
    0x20 <= c <= 0x7e && c != QUOTE && c != BACKSLASH
  }

  function Escape(c: Code): Text {
    if Plain(c) then [c]
    else if ShortEscape(c).Some? then [BACKSLASH, ShortEscape(c).value]
    else if c < 0x1_0000 then Unicode(c)
    else Unicode(0xd800 + (c - 0x1_0000) / 0x400) + Unicode(0xdc00 + (c - 0x1_0000) % 0x400)
  }

  /** The escapes by name. */
  lemma ShortEscapes()
    ensures Escape('"' as int) == Ascii("\\\"") && Escape('\\' as int) == Ascii("\\\\")
    ensures Escape(8) == Ascii("\\b") && Escape(9) == Ascii("\\t") && Escape(10) == Ascii("\\n")
    ensures Escape(12) == Ascii("\\f") && Escape(13) == Ascii("\\r")
    ensures forall c: Code :: ' ' as int <= c <= '~' as int && c != '"' as int && c != '\\' as int ==> Escape(c) == [c]
  {
  }

  /** Any other code unit is four lower-case digits; a larger code point is its surrogate pair. */
  lemma LongEscapes(c: Code)
    requires !(0x20 <= c <= 0x7e) && c !in {8, 9, 10, 12, 13}
    ensures c < 0x1_0000 ==> IsUnicode(Escape(c), c)
    ensures c >= 0x1_0000 ==> exists h: Code, l: Code ::
      && High(h) && Low(l) && c == 0x1_0000 + (h - 0xd800) * 0x400 + (l - 0xdc00)
      && |Escape(c)| == 12 && IsUnicode(Escape(c)[..6], h) && IsUnicode(Escape(c)[6..], l)
  {
    if c < 0x1_0000 {
      UnicodeDigits(c);
    } else {
      var h: Code, l: Code := 0xd800 + (c - 0x1_0000) / 0x400, 0xdc00 + (c - 0x1_0000) % 0x400;
      UnicodeDigits(h);
      UnicodeDigits(l);
      assert Escape(c)[..6] == Unicode(h) && Escape(c)[6..] == Unicode(l);
    }
  }

  /** A backslash, a `u`, and four lower-case hexadecimal digits that make `n`. */
  predicate IsUnicode(t: Text, n: int) {
    && |t| == 6 && t[..2] == Ascii("\\u")
    && (forall i :: 2 <= i < 6 ==> '0' as int <= t[i] <= '9' as int || 'a' as int <= t[i] <= 'f' as int)
    && HexValue(t[2]) * 4096 + HexValue(t[3]) * 256 + HexValue(t[4]) * 16 + HexValue(t[5]) == n
  }

  lemma UnicodeDigits(n: int)
    requires 0 <= n < 0x1_0000
    ensures IsUnicode(Unicode(n), n)
  {
    HexDigitValue(n / 0x1000);
    HexDigitValue(n / 0x100 % 16);
    HexDigitValue(n / 16 % 16);
    HexDigitValue(n % 16);
    FourDigits(n);
    assert Unicode(n)[..2] == Ascii("\\u");
    assert Unicode(n)[2..] == [HexDigit(n / 0x1000), HexDigit(n / 0x100 % 16), HexDigit(n / 16 % 16), HexDigit(n % 16)];
  }

  lemma FourDigits(n: int)
    requires 0 <= n < 0x1_0000
    ensures 0 <= n / 0x1000 < 16
    ensures n / 0x1000 * 0x1000 + n / 0x100 % 16 * 0x100 + n / 16 % 16 * 16 + n % 16 == n
  {
    var tens := n / 16;
    var hundreds := tens / 16;
    assert n / 0x100 == hundreds && n / 0x1000 == hundreds / 16;
  }

  lemma HexDigitValue(n: int)
    requires 0 <= n < 16
    ensures HexValue(HexDigit(n)) == n
    ensures '0' as int <= HexDigit(n) <= '9' as int || 'a' as int <= HexDigit(n) <= 'f' as int
  {
  }

  function EscapeAll(s: Text): Text {
    if s == [] then [] else Escape(s[0]) + EscapeAll(s[1..])
  }

  function PrintString(s: Text): Text {
    [QUOTE] + (EscapeAll(s) + [QUOTE])
  }

  /** `json.dumps` with its default separators. */
  function Print(j: Json): Text
    decreases j, 0
  {
    match j
    case JNull => Ascii("null")
    case JBool(b) => if b then Ascii("true") else Ascii("false")
    case JNumber(text) => text
    case JString(s) => PrintString(s)
    case JArray(items) =>
      if items.NoItems? then [OPEN_BRACKET, CLOSE_BRACKET] else [OPEN_BRACKET] + PrintItems(items)
    case JObject(members) =>
      if members.NoMembers? then [OPEN_BRACE, CLOSE_BRACE] else [OPEN_BRACE] + PrintMembers(members)
  }

  /** The elements of an array up to and with its closing bracket. */
  function PrintItems(items: Items): Text
    requires items.Items?
    decreases items, 1
  {
    Print(items.head) +
    (if items.tail.NoItems? then [CLOSE_BRACKET] else [COMMA, SPACE] + PrintItems(items.tail))
  }

  function PrintMembers(m: Members): Text
    requires m.Members?
    decreases m, 1
  {
    PrintString(m.key) + ([COLON, SPACE] + (Print(m.value) +
    (if m.rest.NoMembers? then [CLOSE_BRACE] else [COMMA, SPACE] + PrintMembers(m.rest))))
  }

  // ---- Parsing -------------------------------------------------------------------------------

  predicate IsSpace(c: Code) {
    c == 0x20 || c == 0x09 || c == 0x0a || c == 0x0d
  }

  function SkipSpace(s: Text): (t: Text)
    ensures |t| <= |s| && (t != [] ==> !IsSpace(t[0]))
  {
    if s != [] && IsSpace(s[0]) then SkipSpace(s[1..]) else s
  }

  function HexValue(c: Code): int {
    if 0x30 <= c <= 0x39 then c - 0x30
    else if 0x61 <= c <= 0x66 then c - 0x61 + 10
    else if 0x41 <= c <= 0x46 then c - 0x41 + 10
    else -1
  }

  /** The four hexadecimal digits at the front of `s`, or -1. */
  function FourHex(s: Text): (n: int)
    ensures -1 <= n < 0x1_0000
  {
    if |s| < 4 || HexValue(s[0]) < 0 || HexValue(s[1]) < 0 || HexValue(s[2]) < 0 || HexValue(s[3]) < 0 then -1
    else HexValue(s[0]) * 0x1000 + HexValue(s[1]) * 0x100 + HexValue(s[2]) * 16 + HexValue(s[3])
  }

  function Unescape(c: Code): Option<Code> {
    if c == QUOTE || c == BACKSLASH || c == 0x2f then Some(c)
    else if c == 0x62 then Some(0x08)
    else if c == 0x66 then Some(0x0c)
    else if c == 0x6e then Some(0x0a)
    else if c == 0x72 then Some(0x0d)
    else if c == 0x74 then Some(0x09)
    else None
  }

  /** The escapes that are read: those that are written, and the slash. */
  lemma UnescapeIff(c: Code, d: Code)
    ensures Unescape(c) == Some(d) <==>
      || ((c == '"' as int || c == '\\' as int || c == '/' as int) && d == c)
      || (c == 'b' as int && d == 8) || (c == 't' as int && d == 9) || (c == 'n' as int && d == 10)
      || (c == 'f' as int && d == 12) || (c == 'r' as int && d == 13)
  {
  }

  /** One character or escape at the front of a string body, and what follows it. */
  function ParseChar(s: Text): (r: Option<(Code, Text)>)
    requires s != []
    ensures r.Some? ==> |r.value.1| < |s|
  {
    if s[0] < 0x20 || s[0] == QUOTE then None
    else if s[0] != BACKSLASH then Some((s[0], s[1..]))
    else if |s| < 2 then None
    else if s[1] != LOWER_U then
      (if Unescape(s[1]).None? then None else Some((Unescape(s[1]).value, s[2..])))
    else
      var u := FourHex(s[2..]);
      if u < 0 then None
      else if High(u) && |s| >= 8 && s[6] == BACKSLASH && s[7] == LOWER_U then
        var v := FourHex(s[8..]);
        if v < 0 then None
        else if Low(v) then Some((Join(u, v), s[12..]))
        else Some((u, s[6..]))
      else Some((u, s[6..]))
  }

  /** `scanstring`, strict: the body of a string up to its closing quote. */
  function ParseString(s: Text): (r: Option<(Text, Text)>)
    ensures r.Some? ==> |r.value.1| < |s|
    decreases |s|
  {
    if s == [] then None
    else if s[0] == QUOTE then Some(([], s[1..]))
    else
      var first := ParseChar(s);
      if first.None? then None
      else
        var more := ParseString(first.value.1);
        if more.None? then None else Some(([first.value.0] + more.value.0, more.value.1))
  }

  predicate IsDigit(c: Code) {
    0x30 <= c <= 0x39
  }

  function Digits(s: Text): (n: nat)
    ensures n <= |s|
  {
    if s != [] && IsDigit(s[0]) then 1 + Digits(s[1..]) else 0
  }

  /** Length of a fraction or exponent at the front of `s`; zero when there is none. */
  function FractionLength(s: Text): (n: nat)
    ensures n <= |s|
  {
    if s != [] && s[0] == 0x2e && Digits(s[1..]) > 0 then 1 + Digits(s[1..]) else 0
  }

  function ExponentLength(s: Text): (n: nat)
    ensures n <= |s|
  {
    if s == [] || !(s[0] == 0x65 || s[0] == 0x45) then 0
    else
      var sign := if |s| >= 2 && (s[1] == 0x2b || s[1] == 0x2d) then 1 else 0;
      if Digits(s[1 + sign..]) > 0 then 1 + sign + Digits(s[1 + sign..]) else 0
  }

  /** Length of the number at the front of `s`; zero when there is none. */
  function NumberLength(s: Text): (n: nat)
    ensures n <= |s|
  {
    var minus := if s != [] && s[0] == 0x2d then 1 else 0;
    var whole := if |s| > minus && s[minus] == 0x30 then 1 else Digits(s[minus..]);
    if whole == 0 then 0
    else
      var n := minus + whole;
      var m := n + FractionLength(s[n..]);
      m + ExponentLength(s[m..])
  }

  predicate StartsWith(s: Text, w: string) {
    |w| <= |s| && s[..|w|] == Ascii(w)
  }

  /** The literals and numbers of `scan_once`. */
  function ParseLiteral(s: Text): (r: Option<(Json, Text)>)
    ensures r.Some? ==> |r.value.1| < |s| && r.value.1 == s[|s| - |r.value.1|..]
    ensures r.Some? ==> r.value.0.JNull? || r.value.0.JBool? || r.value.0.JNumber?
  {
    if StartsWith(s, "null") then Some((JNull, s[4..]))
    else if StartsWith(s, "true") then Some((JBool(true), s[4..]))
    else if StartsWith(s, "false") then Some((JBool(false), s[5..]))
    else if NumberLength(s) > 0 then Some((JNumber(s[..NumberLength(s)]), s[NumberLength(s)..]))
    else if StartsWith(s, "NaN") then Some((JNumber(s[..3]), s[3..]))
    else if StartsWith(s, "Infinity") then Some((JNumber(s[..8]), s[8..]))
    else if StartsWith(s, "-Infinity") then Some((JNumber(s[..9]), s[9..]))
    else None
  }

  /** `scan_once` */
  function ParseValue(s: Text): (r: Option<(Json, Text)>)
    ensures r.Some? ==> |r.value.1| < |s|
    decreases |s|, 0
  {
    if s == [] then None
    else if s[0] == QUOTE then
      var t := ParseString(s[1..]);
      if t.None? then None else Some((JString(t.value.0), t.value.1))
    else if s[0] == OPEN_BRACE then
      var t := SkipSpace(s[1..]);
      if t == [] then None
      else if t[0] == CLOSE_BRACE then Some((JObject(NoMembers), t[1..]))
      else
        var m := ParseMembers(t);
        if m.None? then None else Some((JObject(m.value.0), m.value.1))
    else if s[0] == OPEN_BRACKET then
      var t := SkipSpace(s[1..]);
      if t == [] then None
      else if t[0] == CLOSE_BRACKET then Some((JArray(NoItems), t[1..]))
      else
        var m := ParseItems(t);
        if m.None? then None else Some((JArray(m.value.0), m.value.1))
    else ParseLiteral(s)
  }

  /** Array elements, from a value up to and with the closing bracket. */
  function ParseItems(s: Text): (r: Option<(Items, Text)>)
    ensures r.Some? ==> |r.value.1| < |s|
    decreases |s|, 1
  {
    var v := ParseValue(s);
    if v.None? then None
    else
      var t := SkipSpace(v.value.1);
      if t == [] then None
      else if t[0] == CLOSE_BRACKET then Some((Items(v.value.0, NoItems), t[1..]))
      else if t[0] != COMMA then None
      else
        var more := ParseItems(SkipSpace(t[1..]));
        if more.None? then None else Some((Items(v.value.0, more.value.0), more.value.1))
  }

  /** Object members, from a key up to and with the closing brace. */
  function ParseMembers(s: Text): (r: Option<(Members, Text)>)
    ensures r.Some? ==> |r.value.1| < |s|
    decreases |s|, 1
  {
    if s == [] || s[0] != QUOTE then None
    else
      var k := ParseString(s[1..]);
      if k.None? then None
      else
        var c := SkipSpace(k.value.1);
        if c == [] || c[0] != COLON then None
        else
          var v := ParseValue(SkipSpace(c[1..]));
          if v.None? then None
          else
            var t := SkipSpace(v.value.1);
            if t == [] then None
            else if t[0] == CLOSE_BRACE then Some((Members(k.value.0, v.value.0, NoMembers), t[1..]))
            else if t[0] != COMMA then None
            else
              var more := ParseMembers(SkipSpace(t[1..]));
              if more.None? then None
              else Some((Members(k.value.0, v.value.0, more.value.0), more.value.1))
  }

  /** `json.loads` on a string; an exception is `None`. */
  function Loads(s: Text): Option<Json> {
    var v := ParseValue(SkipSpace(s));
    if v.Some? && SkipSpace(v.value.1) == [] then Some(v.value.0) else None
  }
}
