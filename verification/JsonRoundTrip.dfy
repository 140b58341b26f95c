/** The parser undoes the printer, for every value without numbers and whatever text follows. */
module JsonRoundTrip {
  import opened Sequences
  import opened Json

  /** The four digits of an escape read back as its code unit. */
  lemma UnicodeValue(n: int, tail: Text)
    requires 0 <= n < 0x1_0000
    ensures FourHex((Unicode(n) + tail)[2..]) == n
    ensures (Unicode(n) + tail)[6..] == tail
  {
    var s := (Unicode(n) + tail)[2..];
    FourDigits(n);
    var a, b, c, d := n / 0x1000, n / 0x100 % 16, n / 16 % 16, n % 16;
    assert s[0] == HexDigit(a) && s[1] == HexDigit(b) && s[2] == HexDigit(c) && s[3] == HexDigit(d);
    FourHexOf(s, a, b, c, d);
  }

  lemma FourHexOf(s: Text, a: int, b: int, c: int, d: int)
    requires 0 <= a < 16 && 0 <= b < 16 && 0 <= c < 16 && 0 <= d < 16 && |s| >= 4
    requires s[0] == HexDigit(a) && s[1] == HexDigit(b) && s[2] == HexDigit(c) && s[3] == HexDigit(d)
    ensures FourHex(s) == a * 0x1000 + b * 0x100 + c * 16 + d
  {
    HexDigitValue(a);
    HexDigitValue(b);
    HexDigitValue(c);
    HexDigitValue(d);
  }

  /** A text that does not go on with the escape of a low surrogate. */
  ghost predicate NoLowNext(s: Text) {
    |s| >= 2 && s[0] == BACKSLASH && s[1] == LOWER_U ==> FourHex(s[2..]) >= 0 && !Low(FourHex(s[2..]))
  }

  lemma ParseUnicode(n: int, tail: Text)
    requires 0 <= n < 0x1_0000 && (High(n) ==> NoLowNext(tail))
    ensures ParseChar(Unicode(n) + tail) == Some((n, tail))
  {
    var s := Unicode(n) + tail;
    UnicodeValue(n, tail);
    assert s[0] == BACKSLASH && s[1] == LOWER_U;
    if High(n) && |s| >= 8 {
      assert s[6] == tail[0] && s[7] == tail[1] && s[8..] == tail[2..];
    }
  }

  lemma ParsePair(h: Code, l: Code, tail: Text)
    requires High(h) && Low(l)
    ensures ParseChar(Unicode(h) + (Unicode(l) + tail)) == Some((Join(h, l), tail))
  {
    var s := Unicode(h) + (Unicode(l) + tail);
    UnicodeValue(h, Unicode(l) + tail);
    UnicodeValue(l, tail);
    var u := Unicode(l) + tail;
    assert s[6..] == u && s[6] == u[0] && s[7] == u[1];
    assert s[8..] == u[2..] && s[12..] == u[6..];
    assert s[0] == BACKSLASH && s[1] == LOWER_U;
  }

  /** One printed character reads back as itself, unless a low surrogate follows a high one. */
  lemma ParseEscape(c: Code, tail: Text)
    requires High(c) ==> NoLowNext(tail)
    ensures ParseChar(Escape(c) + tail) == Some((c, tail))
  {
    if Plain(c) {
      assert (Escape(c) + tail)[1..] == tail;
    } else if ShortEscape(c).Some? {
      var s := Escape(c) + tail;
      assert s[0] == BACKSLASH && s[1] == ShortEscape(c).value && s[2..] == tail;
    } else if c < 0x1_0000 {
      ParseUnicode(c, tail);
    } else {
      var h, l := 0xd800 + (c - 0x1_0000) / 0x400, 0xdc00 + (c - 0x1_0000) % 0x400;
      assert Escape(c) + tail == Unicode(h) + (Unicode(l) + tail);
      ParsePair(h, l, tail);
    }
  }

  lemma EscapeStart(c: Code, tail: Text)
    ensures Escape(c) + tail != [] && (Escape(c) + tail)[0] != QUOTE
    ensures !Low(c) ==> NoLowNext(Escape(c) + tail)
  {
    var s := Escape(c) + tail;
    assert s[0] == Escape(c)[0];
    if !Plain(c) && ShortEscape(c).None? {
      var n := if c < 0x1_0000 then c else 0xd800 + (c - 0x1_0000) / 0x400;
      var rest := if c < 0x1_0000 then tail else Unicode(0xdc00 + (c - 0x1_0000) % 0x400) + tail;
      assert s == Unicode(n) + rest;
      UnicodeValue(n, rest);
    } else if !Plain(c) {
      assert s[1] == ShortEscape(c).value;
    }
  }

  lemma ParseStep(s: Text, c: Code, after: Text, t: Text, rest: Text)
    requires s != [] && s[0] != QUOTE && ParseChar(s) == Some((c, after))
    requires ParseString(after) == Some((t, rest))
    ensures ParseString(s) == Some(([c] + t, rest))
  {
  }

  /** The escape after a high surrogate is not that of a low one, when no pair stands there. */
  lemma NoLowAfter(s: Text, tail: Text)
    requires s == [] || !Low(s[0])
    requires tail != [] && tail[0] == QUOTE
    ensures NoLowNext(EscapeAll(s) + tail)
  {
    if s == [] {
      assert EscapeAll(s) + tail == tail;
    } else {
      assert EscapeAll(s) + tail == Escape(s[0]) + (EscapeAll(s[1..]) + tail);
      EscapeStart(s[0], EscapeAll(s[1..]) + tail);
    }
  }

  /** A printed string body reads back joined, up to its quote and no further. */
  lemma {:induction false} ParsePrintedString(s: Text, rest: Text)
    ensures ParseString(EscapeAll(s) + ([QUOTE] + rest)) == Some((Joined(s), rest))
    decreases |s|
  {
    var tail := [QUOTE] + rest;
    if s == [] {
      assert EscapeAll(s) + tail == tail && tail[1..] == rest;
    } else if |s| >= 2 && High(s[0]) && Low(s[1]) {
      ParsePrintedPair(s, rest);
    } else {
      ParsePrintedString(s[1..], rest);
      ParsePrintedOne(s, tail, rest);
    }
  }

  lemma EscapeFirst(s: Text, tail: Text)
    requires s != []
    ensures EscapeAll(s) + tail == Escape(s[0]) + (EscapeAll(s[1..]) + tail)
  {
    Assoc(Escape(s[0]), EscapeAll(s[1..]), tail);
  }

  lemma ParsePrintedOne(s: Text, tail: Text, rest: Text)
    requires s != [] && !(|s| >= 2 && High(s[0]) && Low(s[1])) && tail != [] && tail[0] == QUOTE
    requires ParseString(EscapeAll(s[1..]) + tail) == Some((Joined(s[1..]), rest))
    ensures ParseString(EscapeAll(s) + tail) == Some((Joined(s), rest))
  {
    var after := EscapeAll(s[1..]) + tail;
    EscapeFirst(s, tail);
    if High(s[0]) {
      NoLowAfter(s[1..], tail);
    }
    EscapeStart(s[0], after);
    ParseEscape(s[0], after);
    ParseStep(Escape(s[0]) + after, s[0], after, Joined(s[1..]), rest);
  }

  lemma {:induction false} ParsePrintedPair(s: Text, rest: Text)
    requires |s| >= 2 && High(s[0]) && Low(s[1])
    ensures ParseString(EscapeAll(s) + ([QUOTE] + rest)) == Some((Joined(s), rest))
    decreases |s|, 0
  {
    var tail := [QUOTE] + rest;
    var after := EscapeAll(s[2..]) + tail;
    var text := Unicode(s[0]) + (Unicode(s[1]) + after);
    EscapeTwo(s, tail);
    ParsePair(s[0], s[1], after);
    ParsePrintedString(s[2..], rest);
    ParseStep(text, Join(s[0], s[1]), after, Joined(s[2..]), rest);
  }

  lemma EscapeTwo(s: Text, tail: Text)
    requires |s| >= 2 && High(s[0]) && Low(s[1])
    ensures EscapeAll(s) + tail == Unicode(s[0]) + (Unicode(s[1]) + (EscapeAll(s[2..]) + tail))
  {
    var t := s[1..];
    assert t[0] == s[1] && t[1..] == s[2..];
    assert EscapeAll(t) == Unicode(s[1]) + EscapeAll(s[2..]);
  }

  predicate NumberFree(j: Json) {
    match j
    case JNumber(_) => false
    case JArray(items) => NumberFreeItems(items)
    case JObject(members) => NumberFreeMembers(members)
    case _ => true
  }

  predicate NumberFreeItems(items: Items) {
    items.Items? ==> NumberFree(items.head) && NumberFreeItems(items.tail)
  }

  predicate NumberFreeMembers(m: Members) {
    m.Members? ==> NumberFree(m.value) && NumberFreeMembers(m.rest)
  }

  /** A value with every string in it joined. */
  function JoinedValue(j: Json): Json {
    match j
    case JString(s) => JString(Joined(s))
    case JArray(items) => JArray(JoinedItems(items))
    case JObject(members) => JObject(JoinedMembers(members))
    case _ => j
  }

  function JoinedItems(items: Items): Items {
    if items.NoItems? then NoItems else Items(JoinedValue(items.head), JoinedItems(items.tail))
  }

  function JoinedMembers(m: Members): Members {
    if m.NoMembers? then NoMembers else Members(Joined(m.key), JoinedValue(m.value), JoinedMembers(m.rest))
  }

  /** The first character of a printed value. */
  predicate Starts(c: Code) {
    !IsSpace(c) && c != CLOSE_BRACKET && c != CLOSE_BRACE
  }

  lemma PrintStarts(j: Json, rest: Text)
    requires NumberFree(j)
    ensures Print(j) + rest != [] && Starts((Print(j) + rest)[0])
    ensures SkipSpace(Print(j) + rest) == Print(j) + rest
  {
    assert Print(j) != [] && (Print(j) + rest)[0] == Print(j)[0];
  }

  lemma SkipOne(s: Text)
    requires s != [] && !IsSpace(s[0])
    ensures SkipSpace([SPACE] + s) == s && SkipSpace(s) == s
  {
    assert ([SPACE] + s)[1..] == s;
  }

  lemma ParsePrintedQuoted(s: Text, rest: Text)
    ensures PrintString(s) + rest != [] && (PrintString(s) + rest)[0] == QUOTE
    ensures ParseString((PrintString(s) + rest)[1..]) == Some((Joined(s), rest))
  {
    assert (PrintString(s) + rest)[1..] == EscapeAll(s) + ([QUOTE] + rest);
    ParsePrintedString(s, rest);
  }

  lemma ParseWord(w: string, rest: Text)
    ensures StartsWith(Ascii(w) + rest, w) && (Ascii(w) + rest)[|w|..] == rest
  {
    assert (Ascii(w) + rest)[..|w|] == Ascii(w);
  }

  lemma ParseQuotedValue(s: Text, rest: Text)
    ensures ParseValue(PrintString(s) + rest) == Some((JString(Joined(s)), rest))
  {
    ParsePrintedQuoted(s, rest);
  }

  lemma ParseWordValue(j: Json, rest: Text)
    requires j.JNull? || j.JBool?
    ensures ParseValue(Print(j) + rest) == Some((j, rest))
  {
    var w := if j.JNull? then "null" else if j.b then "true" else "false";
    ParseWord(w, rest);
    assert (Print(j) + rest)[0] == w[0] as int;
  }

  lemma ParseArrayValue(s: Text, t: Text, items: Items, rest: Text)
    requires s == [OPEN_BRACKET] + t && SkipSpace(t) == t && t != [] && t[0] != CLOSE_BRACKET
    requires ParseItems(t) == Some((items, rest))
    ensures ParseValue(s) == Some((JArray(items), rest))
  {
    assert s[1..] == t;
  }

  lemma ParseObjectValue(s: Text, t: Text, m: Members, rest: Text)
    requires s == [OPEN_BRACE] + t && SkipSpace(t) == t && t != [] && t[0] != CLOSE_BRACE
    requires ParseMembers(t) == Some((m, rest))
    ensures ParseValue(s) == Some((JObject(m), rest))
  {
    assert s[1..] == t;
  }

  lemma ParseEmpty(rest: Text)
    ensures ParseValue([OPEN_BRACKET, CLOSE_BRACKET] + rest) == Some((JArray(NoItems), rest))
    ensures ParseValue([OPEN_BRACE, CLOSE_BRACE] + rest) == Some((JObject(NoMembers), rest))
  {
    var a, o := [OPEN_BRACKET, CLOSE_BRACKET] + rest, [OPEN_BRACE, CLOSE_BRACE] + rest;
    assert a[1..] == [CLOSE_BRACKET] + rest && a[1..][1..] == rest;
    assert o[1..] == [CLOSE_BRACE] + rest && o[1..][1..] == rest;
  }

  /** `loads` undoes `dumps`, with any text after the value left over. */
  lemma {:induction false} ParsePrinted(j: Json, rest: Text)
    requires NumberFree(j)
    ensures ParseValue(Print(j) + rest) == Some((JoinedValue(j), rest))
    decreases j, 0
  {
    match j
    case JNull => ParseWordValue(j, rest);
    case JBool(b) => ParseWordValue(j, rest);
    case JString(t) => ParseQuotedValue(t, rest);
    case JArray(items) =>
      if items.Items? {
        var t := PrintItems(items) + rest;
        assert Print(j) + rest == [OPEN_BRACKET] + t;
        ParsePrintedItems(items, rest);
        ItemsStart(items, rest);
        ParseArrayValue(Print(j) + rest, t, JoinedItems(items), rest);
      } else {
        ParseEmpty(rest);
      }
    case JObject(members) =>
      if members.Members? {
        var t := PrintMembers(members) + rest;
        assert Print(j) + rest == [OPEN_BRACE] + t;
        ParsePrintedMembers(members, rest);
        MembersStart(members, rest);
        ParseObjectValue(Print(j) + rest, t, JoinedMembers(members), rest);
      } else {
        ParseEmpty(rest);
      }
  }

  lemma ItemsStart(items: Items, rest: Text)
    requires items.Items? && NumberFreeItems(items)
    ensures PrintItems(items) + rest != [] && Starts((PrintItems(items) + rest)[0])
    ensures SkipSpace(PrintItems(items) + rest) == PrintItems(items) + rest
  {
    PrintStarts(items.head, []);
    assert Print(items.head) + [] == Print(items.head);
    assert (PrintItems(items) + rest)[0] == Print(items.head)[0];
  }

  lemma MembersStart(m: Members, rest: Text)
    requires m.Members?
    ensures PrintMembers(m) + rest != [] && (PrintMembers(m) + rest)[0] == QUOTE
    ensures SkipSpace(PrintMembers(m) + rest) == PrintMembers(m) + rest
  {
  }

  lemma {:induction false} ParsePrintedItems(items: Items, rest: Text)
    requires items.Items? && NumberFreeItems(items)
    ensures ParseItems(PrintItems(items) + rest) == Some((JoinedItems(items), rest))
    decreases items, 1
  {
    if items.tail.NoItems? {
      var after := [CLOSE_BRACKET] + rest;
      assert PrintItems(items) + rest == Print(items.head) + after;
      ParsePrinted(items.head, after);
      assert SkipSpace(after) == after && after[1..] == rest;
    } else {
      var more := PrintItems(items.tail) + rest;
      var after := [COMMA] + ([SPACE] + more);
      assert PrintItems(items) + rest == Print(items.head) + after;
      ParsePrinted(items.head, after);
      assert SkipSpace(after) == after && after[1..] == [SPACE] + more;
      ItemsStart(items.tail, rest);
      SkipOne(more);
      ParsePrintedItems(items.tail, rest);
    }
  }

  /** What follows a member's value: the closing brace, or a comma and the other members. */
  function MembersTail(m: Members, rest: Text): Text
    requires m.Members?
  {
    if m.rest.NoMembers? then [CLOSE_BRACE] + rest
    else [COMMA] + ([SPACE] + (PrintMembers(m.rest) + rest))
  }

  lemma PrintMembersShape(m: Members, rest: Text)
    requires m.Members?
    ensures PrintMembers(m) + rest ==
      PrintString(m.key) + ([COLON] + ([SPACE] + (Print(m.value) + MembersTail(m, rest))))
  {
    PrintMembersSplit(m);
    PrintedTailShape(m, rest);
    Regroup(PrintString(m.key), Print(m.value), PrintedTail(m), rest);
  }

  function PrintedTail(m: Members): Text
    requires m.Members?
  {
    if m.rest.NoMembers? then [CLOSE_BRACE] else [COMMA, SPACE] + PrintMembers(m.rest)
  }

  lemma PrintMembersSplit(m: Members)
    requires m.Members?
    ensures PrintMembers(m) == PrintString(m.key) + ([COLON, SPACE] + (Print(m.value) + PrintedTail(m)))
  {
  }

  lemma PrintedTailShape(m: Members, rest: Text)
    requires m.Members?
    ensures PrintedTail(m) + rest == MembersTail(m, rest)
  {
    if !m.rest.NoMembers? {
      Assoc([COMMA, SPACE], PrintMembers(m.rest), rest);
      Assoc([COMMA], [SPACE], PrintMembers(m.rest) + rest);
    }
  }

  lemma Regroup(key: Text, value: Text, tail: Text, rest: Text)
    ensures (key + ([COLON, SPACE] + (value + tail))) + rest ==
      key + ([COLON] + ([SPACE] + (value + (tail + rest))))
  {
    Assoc(key, [COLON, SPACE] + (value + tail), rest);
    Assoc([COLON, SPACE], value + tail, rest);
    Assoc(value, tail, rest);
    Assoc([COLON], [SPACE], value + (tail + rest));
  }

  /** One member parsed from its parts. */
  lemma ParseMemberStep(s: Text, key: Text, colon: Text, value: Text, v: Json, end: Text)
    requires s != [] && s[0] == QUOTE && ParseString(s[1..]) == Some((key, colon))
    requires colon == [COLON] + ([SPACE] + value) && value != [] && !IsSpace(value[0])
    requires ParseValue(value) == Some((v, end)) && end != [] && !IsSpace(end[0])
    ensures end[0] == CLOSE_BRACE ==> ParseMembers(s) == Some((Members(key, v, NoMembers), end[1..]))
    ensures end[0] == COMMA && ParseMembers(SkipSpace(end[1..])).Some? ==>
      ParseMembers(s) == Some((Members(key, v, ParseMembers(SkipSpace(end[1..])).value.0),
                               ParseMembers(SkipSpace(end[1..])).value.1))
  {
    assert SkipSpace(colon) == colon && colon[1..] == [SPACE] + value;
    SkipOne(value);
    assert SkipSpace(end) == end;
  }

  lemma {:induction false} ParsePrintedMembers(m: Members, rest: Text)
    requires m.Members? && NumberFreeMembers(m)
    ensures ParseMembers(PrintMembers(m) + rest) == Some((JoinedMembers(m), rest))
    decreases m, 1
  {
    var end := MembersTail(m, rest);
    var value := Print(m.value) + end;
    var colon := [COLON] + ([SPACE] + value);
    PrintMembersShape(m, rest);
    ParsePrintedQuoted(m.key, colon);
    PrintStarts(m.value, end);
    ParsePrinted(m.value, end);
    ParseMemberStep(PrintMembers(m) + rest, Joined(m.key), colon, value, JoinedValue(m.value), end);
    if m.rest.NoMembers? {
      assert end[1..] == rest;
    } else {
      assert end[1..] == [SPACE] + (PrintMembers(m.rest) + rest);
      MembersStart(m.rest, rest);
      SkipOne(PrintMembers(m.rest) + rest);
      ParsePrintedMembers(m.rest, rest);
    }
  }

  /** Printing and loading a value gives the value with its strings joined. */
  lemma LoadsPrinted(j: Json)
    requires NumberFree(j)
    ensures Loads(Print(j)) == Some(JoinedValue(j))
  {
    PrintStarts(j, []);
    ParsePrinted(j, []);
    assert Print(j) + [] == Print(j);
  }
}
