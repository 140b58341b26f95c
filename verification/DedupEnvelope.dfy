/**
 * The dedup cache entry: a JSON envelope around the shaped response, the agents and the run id,
 * with plain strings from before the envelope still read as themselves.
 */
module DedupEnvelope {
  import opened Sequences
  import opened Json
  import opened JsonRoundTrip
  import opened JsonLengths
  import opened JsonScalars

  datatype Entry = Entry(shaped: Text, agents: seq<Text>, runId: Text)

  /** Python's `str` of a JSON value that is not a string, and which number texts are zero. */
  datatype Python = Python(str: Json -> Text, isZero: Text -> bool)

  const VERSION := "brain_dedup_v1"

  function Strings(agents: seq<Text>): Items {
    if agents == [] then NoItems else Items(JString(agents[0]), Strings(agents[1..]))
  }

  const KEY_VERSION: Text := Ascii("v")
  const KEY_SHAPED: Text := Ascii("shaped")
  const KEY_AGENTS: Text := Ascii("agents_used")
  const KEY_RUN: Text := Ascii("run_id")

  function Last(runId: Text): Members {
    Members(KEY_RUN, JString(runId), NoMembers)
  }

  function LastTwo(agents: Items, runId: Text): Members {
    Members(KEY_AGENTS, JArray(agents), Last(runId))
  }

  function LastThree(shaped: Text, agents: Items, runId: Text): Members {
    Members(KEY_SHAPED, JString(shaped), LastTwo(agents, runId))
  }

  /** The four members in the order they are written. */
  function Body(shaped: Text, agents: Items, runId: Text): Members {
    Members(KEY_VERSION, JString(Ascii(VERSION)), LastThree(shaped, agents, runId))
  }

  function Envelope(e: Entry): Json {
    JObject(Body(e.shaped, Strings(e.agents), e.runId))
  }

  /** `_encode_dedup_payload` */
  function Encode(e: Entry): Text {
    Print(Envelope(e))
  }

  /** `dict.get` on a parsed object: of several members with one key the last counts. */
  function Get(m: Members, key: Text): Option<Json> {
    if m.NoMembers? then None
    else
      var later := Get(m.rest, key);
      if later.Some? then later else if m.key == key then Some(m.value) else None
  }

  function Str(py: Python, j: Json): Text {
    if j.JString? then j.s else py.str(j)
  }

  function StrAll(py: Python, items: Items): seq<Text> {
    if items.NoItems? then [] else [Str(py, items.head)] + StrAll(py, items.tail)
  }

  predicate Falsy(py: Python, j: Json) {
    match j
    case JNull => true
    case JBool(b) => !b
    case JNumber(text) => py.isZero(text)
    case JString(s) => s == []
    case JArray(items) => items.NoItems?
    case JObject(members) => members.NoMembers?
  }

  /** The members of `raw`, when it is a versioned envelope with a string in it. */
  function EnvelopeMembers(raw: Text): Option<Members> {
    var parsed := Loads(raw);
    if parsed.None? || !parsed.value.JObject? then None
    else
      var m := parsed.value.members;
      if Get(m, KEY_VERSION) != Some(JString(Ascii(VERSION))) then None
      else
        var shaped := Get(m, KEY_SHAPED);
        if shaped.Some? && shaped.value.JString? then Some(m) else None
  }

  /** `_decode_dedup_payload` */
  function Decode(raw: Option<Text>, py: Python): Option<Entry> {
    if raw.None? || raw.value == [] then None
    else
      var m := EnvelopeMembers(raw.value);
      if m.None? then Some(Entry(raw.value, [], []))
      else Some(Entry(Shaped(m.value), Agents(py, m.value), RunId(py, m.value)))
  }

  function Shaped(m: Members): Text {
    var j := Get(m, KEY_SHAPED);
    if j.Some? && j.value.JString? then j.value.s else []
  }

  function Agents(py: Python, m: Members): seq<Text> {
    var j := Get(m, KEY_AGENTS);
    if j.Some? && j.value.JArray? then StrAll(py, j.value.items) else []
  }

  function RunId(py: Python, m: Members): Text {
    var j := Get(m, KEY_RUN);
    if j.None? || Falsy(py, j.value) then [] else Str(py, j.value)
  }

  // ---- The format, in the terms of the text ----------------------------------------------------

  /** `", ".join(parts)` */
  function Commas(parts: seq<Text>): Text {
    if parts == [] then []
    else if |parts| == 1 then parts[0]
    else parts[0] + (Ascii(", ") + Commas(parts[1..]))
  }

  function Quoted(texts: seq<Text>): (r: seq<Text>)
    ensures |r| == |texts| && forall i :: 0 <= i < |r| ==> r[i] == PrintString(texts[i])
  {
    seq(|texts|, i requires 0 <= i < |texts| => PrintString(texts[i]))
  }

  lemma {:induction false} PrintStrings(agents: seq<Text>)
    requires agents != []
    ensures PrintItems(Strings(agents)) == Commas(Quoted(agents)) + Ascii("]")
  {
    var first, end := PrintString(agents[0]), Ascii("]");
    if |agents| == 1 {
      assert Strings(agents[1..]) == NoItems;
    } else {
      PrintStrings(agents[1..]);
      assert Quoted(agents)[1..] == Quoted(agents[1..]);
      Assoc(Ascii(", "), Commas(Quoted(agents[1..])), end);
      Assoc(first, Ascii(", ") + Commas(Quoted(agents[1..])), end);
      assert [COMMA, SPACE] == Ascii(", ");
    }
  }

  /** A list of strings is printed between brackets. */
  lemma PrintArray(agents: seq<Text>)
    ensures Print(JArray(Strings(agents))) == Ascii("[") + (Commas(Quoted(agents)) + Ascii("]"))
  {
    if agents != [] {
      PrintStrings(agents);
    }
  }

  lemma {:induction false} EscapeAllPlain(w: string)
    requires forall i :: 0 <= i < |w| ==> ' ' <= w[i] <= '~' && w[i] != '"' && w[i] != '\\'
    ensures EscapeAll(Ascii(w)) == Ascii(w)
  {
    if w != "" {
      assert Ascii(w)[1..] == Ascii(w[1..]);
      EscapeAllPlain(w[1..]);
    }
  }

  function Quote(w: string): Text {
    Ascii("\"" + w + "\"")
  }

  lemma PrintPlain(w: string)
    requires forall i :: 0 <= i < |w| ==> ' ' <= w[i] <= '~' && w[i] != '"' && w[i] != '\\'
    ensures PrintString(Ascii(w)) == Quote(w)
  {
    EscapeAllPlain(w);
  }

  function Named(key: Text, value: Text): Text {
    key + (Ascii(": ") + value)
  }

  /** The members of an object, each with its key. */
  function Printed(m: Members): seq<Text> {
    if m.NoMembers? then [] else [Named(PrintString(m.key), Print(m.value))] + Printed(m.rest)
  }

  lemma {:induction false} MembersPrinted(m: Members)
    requires m.Members?
    ensures PrintMembers(m) == Commas(Printed(m)) + Ascii("}")
  {
    var first := Named(PrintString(m.key), Print(m.value));
    var tail := if m.rest.NoMembers? then Ascii("}") else Ascii(", ") + PrintMembers(m.rest);
    assert [COLON, SPACE] == Ascii(": ") && [COMMA, SPACE] == Ascii(", ") && [CLOSE_BRACE] == Ascii("}");
    Assoc(Ascii(": "), Print(m.value), tail);
    Assoc(PrintString(m.key), Ascii(": ") + Print(m.value), tail);
    if m.rest.Members? {
      MembersPrinted(m.rest);
      assert Printed(m)[1..] == Printed(m.rest);
      Assoc(Ascii(", "), Commas(Printed(m.rest)), Ascii("}"));
      Assoc(first, Ascii(", ") + Commas(Printed(m.rest)), Ascii("}"));
    }
  }

  /** What is stored: an object with four members. */
  lemma EncodeIsLiteral(e: Entry)
    ensures Encode(e) == Print(JObject(
      Members(Ascii("v"), JString(Ascii("brain_dedup_v1")),
      Members(Ascii("shaped"), JString(e.shaped),
      Members(Ascii("agents_used"), JArray(Strings(e.agents)),
      Members(Ascii("run_id"), JString(e.runId), NoMembers))))))
  {
  }

  /** How an object that is not empty is printed. */
  lemma ObjectPrinted(m: Members)
    requires m.Members?
    ensures Print(JObject(m)) == Ascii("{") + (Commas(Printed(m)) + Ascii("}"))
  {
    MembersPrinted(m);
  }

  ghost predicate HasKey(m: Members, key: Text) {
    m.Members? && (m.key == key || HasKey(m.rest, key))
  }

  /** The last member of this key has this value. */
  ghost predicate LastMember(m: Members, key: Text, value: Json) {
    m.Members? && (LastMember(m.rest, key, value) || (m.key == key && m.value == value && !HasKey(m.rest, key)))
  }

  lemma {:induction false} GetIsLast(m: Members, key: Text)
    ensures Get(m, key).Some? <==> HasKey(m, key)
    ensures forall value :: LastMember(m, key, value) <==> Get(m, key) == Some(value)
  {
    if m.Members? {
      GetIsLast(m.rest, key);
    }
  }

  // ---- Round trip ----------------------------------------------------------------------------

  /** A Dafny character is a Unicode scalar value, so no text written as a literal has surrogates. */
  lemma AsciiJoined(w: string)
    ensures Joined(Ascii(w)) == Ascii(w)
  {
    JoinedIdentityIff(Ascii(w));
  }

  lemma KeysDiffer()
    ensures KEY_VERSION != KEY_SHAPED && KEY_VERSION != KEY_AGENTS && KEY_VERSION != KEY_RUN
    ensures KEY_SHAPED != KEY_AGENTS && KEY_SHAPED != KEY_RUN && KEY_AGENTS != KEY_RUN
  {
    assert KEY_SHAPED[0] != KEY_RUN[0];
  }

  function JoinedAll(texts: seq<Text>): (r: seq<Text>)
    ensures |r| == |texts|
  {
    if texts == [] then [] else [Joined(texts[0])] + JoinedAll(texts[1..])
  }

  lemma {:induction false} StringsRoundTrip(py: Python, agents: seq<Text>)
    ensures NumberFreeItems(Strings(agents))
    ensures StrAll(py, JoinedItems(Strings(agents))) == JoinedAll(agents)
  {
    if agents != [] {
      StringsRoundTrip(py, agents[1..]);
    }
  }

  /** The body with its strings joined, member by member. */
  lemma JoinedBody(shaped: Text, agents: Items, runId: Text)
    ensures JoinedMembers(Body(shaped, agents, runId)) == Body(Joined(shaped), JoinedItems(agents), Joined(runId))
  {
    AsciiJoined("v");
    AsciiJoined("shaped");
    JoinedLastTwo(agents, runId);
    JoinedVersion();
    assert JoinedMembers(LastThree(shaped, agents, runId)) ==
      LastThree(Joined(shaped), JoinedItems(agents), Joined(runId));
  }

  lemma JoinedLastTwo(agents: Items, runId: Text)
    ensures JoinedMembers(LastTwo(agents, runId)) == LastTwo(JoinedItems(agents), Joined(runId))
  {
    AsciiJoined("agents_used");
    AsciiJoined("run_id");
    assert JoinedMembers(Last(runId)) == Last(Joined(runId));
  }

  lemma JoinedVersion()
    ensures JoinedValue(JString(Ascii(VERSION))) == JString(Ascii(VERSION))
  {
    AsciiJoined(VERSION);
  }

  lemma BodyNumberFree(shaped: Text, agents: Items, runId: Text)
    requires NumberFreeItems(agents)
    ensures NumberFreeMembers(Body(shaped, agents, runId))
  {
    assert NumberFreeMembers(NoMembers);
    assert NumberFreeMembers(Last(runId));
    assert NumberFreeMembers(LastTwo(agents, runId));
    assert NumberFreeMembers(LastThree(shaped, agents, runId));
  }

  lemma GetSkips(m: Members, key: Text)
    requires m.Members?
    ensures m.key != key ==> Get(m, key) == Get(m.rest, key)
    ensures m.key == key && Get(m.rest, key).None? ==> Get(m, key) == Some(m.value)
  {
  }

  lemma GetFromLastTwo(agents: Items, runId: Text, key: Text)
    requires key == KEY_AGENTS || key == KEY_RUN || key == KEY_SHAPED || key == KEY_VERSION
    ensures Get(LastTwo(agents, runId), key) ==
      if key == KEY_AGENTS then Some(JArray(agents)) else if key == KEY_RUN then Some(JString(runId)) else None
  {
    KeysDiffer();
    assert Get(NoMembers, key).None?;
    GetSkips(Last(runId), key);
    GetSkips(LastTwo(agents, runId), key);
  }

  /** Every member of a body is found under its key. */
  lemma GetFromBody(shaped: Text, agents: Items, runId: Text)
    ensures var m := Body(shaped, agents, runId);
            && Get(m, KEY_VERSION) == Some(JString(Ascii(VERSION)))
            && Get(m, KEY_SHAPED) == Some(JString(shaped))
            && Get(m, KEY_AGENTS) == Some(JArray(agents))
            && Get(m, KEY_RUN) == Some(JString(runId))
  {
    KeysDiffer();
    var m := Body(shaped, agents, runId);
    GetFromLastTwo(agents, runId, KEY_VERSION);
    GetFromLastTwo(agents, runId, KEY_SHAPED);
    GetFromLastTwo(agents, runId, KEY_AGENTS);
    GetFromLastTwo(agents, runId, KEY_RUN);
    GetSkips(m.rest, KEY_VERSION);
    GetSkips(m.rest, KEY_SHAPED);
    GetSkips(m.rest, KEY_AGENTS);
    GetSkips(m.rest, KEY_RUN);
    GetSkips(m, KEY_VERSION);
    GetSkips(m, KEY_SHAPED);
    GetSkips(m, KEY_AGENTS);
    GetSkips(m, KEY_RUN);
  }

  function JoinedEntry(e: Entry): Entry {
    Entry(Joined(e.shaped), JoinedAll(e.agents), Joined(e.runId))
  }

  /** Any text that loads as a body decodes to what the body holds. */
  lemma DecodeBody(raw: Text, shaped: Text, agents: Items, runId: Text, py: Python)
    requires raw != [] && Loads(raw) == Some(JObject(Body(shaped, agents, runId)))
    ensures Decode(Some(raw), py) == Some(Entry(shaped, StrAll(py, agents), runId))
  {
    GetFromBody(shaped, agents, runId);
  }

  /** What comes back, for every entry whatever its strings hold. */
  lemma DecodeEncode(e: Entry, py: Python)
    ensures Decode(Some(Encode(e)), py) == Some(JoinedEntry(e))
  {
    StringsRoundTrip(py, e.agents);
    BodyNumberFree(e.shaped, Strings(e.agents), e.runId);
    LoadsPrinted(Envelope(e));
    JoinedBody(e.shaped, Strings(e.agents), e.runId);
    DecodeBody(Encode(e), Joined(e.shaped), JoinedItems(Strings(e.agents)), Joined(e.runId), py);
  }

  predicate PairFreeEntry(e: Entry) {
    PairFree(e.shaped) && PairFree(e.runId) && forall i :: 0 <= i < |e.agents| ==> PairFree(e.agents[i])
  }

  lemma {:induction false} JoinedAllIdentityIff(texts: seq<Text>)
    ensures JoinedAll(texts) == texts <==> forall i :: 0 <= i < |texts| ==> PairFree(texts[i])
  {
    if texts != [] {
      var rest := texts[1..];
      JoinedAllIdentityIff(rest);
      JoinedIdentityIff(texts[0]);
      assert texts == [texts[0]] + rest;
      assert JoinedAll(texts)[1..] == JoinedAll(rest) && JoinedAll(texts)[0] == Joined(texts[0]);
      assert forall i :: 0 <= i < |rest| ==> rest[i] == texts[i + 1];
      if forall i :: 0 <= i < |rest| ==> PairFree(rest[i]) {
        assert forall i :: 1 <= i < |texts| ==> texts[i] == rest[i - 1];
      }
    }
  }

  /**
   * The round trip, exactly: an entry comes back as it went in if and only if none of its strings
   * has a high surrogate right before a low one.
   */
  lemma RoundTripIff(e: Entry, py: Python)
    ensures Decode(Some(Encode(e)), py) == Some(e) <==> PairFreeEntry(e)
  {
    DecodeEncode(e, py);
    JoinedIdentityIff(e.shaped);
    JoinedIdentityIff(e.runId);
    JoinedAllIdentityIff(e.agents);
  }

  /** Entries of Unicode scalar values always come back as they went in. */
  lemma ScalarEntriesRoundTrip(e: Entry, py: Python)
    requires Scalar(e.shaped) && Scalar(e.runId) && forall i :: 0 <= i < |e.agents| ==> Scalar(e.agents[i])
    ensures Decode(Some(Encode(e)), py) == Some(e)
  {
    ScalarIsPairFree(e.shaped);
    ScalarIsPairFree(e.runId);
    forall i | 0 <= i < |e.agents|
      ensures PairFree(e.agents[i])
    {
      ScalarIsPairFree(e.agents[i]);
    }
    RoundTripIff(e, py);
  }

  // ---- Legacy entries ------------------------------------------------------------------------

  lemma {:induction false} GetShort(m: Members, key: Text, n: nat)
    requires ShortMembers(m, n)
    ensures Get(m, key).Some? ==> ShortValue(Get(m, key).value, n)
  {
    if m.Members? {
      GetShort(m.rest, key, n);
    }
  }

  /**
   * A stored text is read as itself, with no agents and no run id, exactly when it is no envelope:
   * what an envelope holds is shorter than the envelope. Nothing stored is no hit.
   */
  lemma DecodesToItselfIff(raw: Text, py: Python)
    ensures Decode(None, py) == None && Decode(Some([]), py) == None
    ensures raw != [] ==>
      (Decode(Some(raw), py) == Some(Entry(raw, [], [])) <==> EnvelopeMembers(raw).None?)
  {
    var m := EnvelopeMembers(raw);
    if m.Some? {
      LoadsShort(raw);
      GetShort(m.value, KEY_SHAPED, |raw|);
    }
  }

  /** The text is an object with the version and a string under the two names. */
  ghost predicate IsEnvelope(raw: Text, m: Members, shaped: Text) {
    && Loads(raw) == Some(JObject(m))
    && LastMember(m, Ascii("v"), JString(Ascii("brain_dedup_v1"))) && LastMember(m, Ascii("shaped"), JString(shaped))
  }

  lemma EnvelopeMembersIff(raw: Text, m: Members)
    ensures EnvelopeMembers(raw) == Some(m) <==> exists shaped :: IsEnvelope(raw, m, shaped)
  {
    GetIsLast(m, KEY_VERSION);
    GetIsLast(m, KEY_SHAPED);
    if EnvelopeMembers(raw) == Some(m) {
      assert IsEnvelope(raw, m, Shaped(m));
    }
  }

  /**
   * So a stored text is read as itself exactly when it is no JSON object, or one whose version is
   * missing or another, or one without a string for the response.
   */
  lemma OnlyEnvelopesAreOpened(raw: Text, py: Python)
    requires raw != []
    ensures Decode(Some(raw), py) == Some(Entry(raw, [], [])) <==> !(exists m, shaped :: IsEnvelope(raw, m, shaped))
  {
    DecodesToItselfIff(raw, py);
    forall m
      ensures EnvelopeMembers(raw) == Some(m) <==> exists shaped :: IsEnvelope(raw, m, shaped)
    {
      EnvelopeMembersIff(raw, m);
    }
  }

  /**
   * What is read from an envelope, whoever wrote it: its response; of a list of agents the strings as
   * they are and the `str` of anything else, and no agents without a list; and the run id, which is
   * empty for a value Python takes for false, the string itself, or the `str` of anything else.
   */
  lemma EnvelopeIsRead(raw: Text, m: Members, shaped: Text, py: Python)
    requires raw != [] && IsEnvelope(raw, m, shaped)
    ensures var e := Decode(Some(raw), py);
            && e.Some? && e.value.shaped == shaped
            && (forall agents :: LastMember(m, Ascii("agents_used"), JArray(ListOf(agents))) ==> AreTexts(e.value.agents, agents, py))
            && ((forall items :: !LastMember(m, Ascii("agents_used"), JArray(items))) ==> e.value.agents == [])
            && (forall j :: LastMember(m, Ascii("run_id"), j) ==> IsRunId(e.value.runId, j, py))
            && (!HasKey(m, Ascii("run_id")) ==> e.value.runId == [])
  {
    EnvelopeMembersIff(raw, m);
    GetIsLast(m, KEY_SHAPED);
    GetIsLast(m, KEY_AGENTS);
    GetIsLast(m, KEY_RUN);
    forall agents | LastMember(m, KEY_AGENTS, JArray(ListOf(agents)))
      ensures AreTexts(StrAll(py, ListOf(agents)), agents, py)
    {
      StrAllOfList(py, agents);
    }
  }

  function ListOf(js: seq<Json>): Items {
    if js == [] then NoItems else Items(js[0], ListOf(js[1..]))
  }

  predicate AreTexts(texts: seq<Text>, js: seq<Json>, py: Python) {
    && |texts| == |js|
    && forall i :: 0 <= i < |js| ==> texts[i] == match js[i] case JString(s) => s case _ => py.str(js[i])
  }

  predicate IsRunId(runId: Text, j: Json, py: Python) {
    match j
    case JString(s) => runId == s
    case JNull => runId == []
    case JBool(b) => runId == if b then py.str(j) else []
    case JNumber(text) => runId == if py.isZero(text) then [] else py.str(j)
    case JArray(items) => runId == if items == NoItems then [] else py.str(j)
    case JObject(members) => runId == if members == NoMembers then [] else py.str(j)
  }

  lemma {:induction false} StrAllOfList(py: Python, js: seq<Json>)
    ensures AreTexts(StrAll(py, ListOf(js)), js, py)
  {
    if js != [] {
      StrAllOfList(py, js[1..]);
      assert forall i :: 1 <= i < |js| ==> js[i] == js[1..][i - 1];
    }
  }

  /** A legacy string need only not begin with a brace, blanks aside, to be safe. */
  lemma PlainTextDecodesToItself(raw: Text, py: Python)
    requires raw != [] && (SkipSpace(raw) == [] || SkipSpace(raw)[0] != OPEN_BRACE)
    ensures Decode(Some(raw), py) == Some(Entry(raw, [], []))
  {
    var v := ParseValue(SkipSpace(raw));
    assert v.Some? ==> !v.value.0.JObject?;
  }

  // ---- Output is ASCII -----------------------------------------------------------------------

  predicate Printable(s: Text) {
    forall i :: 0 <= i < |s| ==> 0x20 <= s[i] <= 0x7e
  }

  lemma PrintableAppend(a: Text, b: Text)
    requires Printable(a) && Printable(b)
    ensures Printable(a + b)
  {
  }

  lemma EscapePrintable(c: Code)
    ensures Printable(Escape(c))
  {
  }

  lemma {:induction false} EscapeAllPrintable(s: Text)
    ensures Printable(EscapeAll(s))
  {
    if s != [] {
      EscapeAllPrintable(s[1..]);
      EscapePrintable(s[0]);
      PrintableAppend(Escape(s[0]), EscapeAll(s[1..]));
    }
  }

  lemma {:induction false} PrintPrintable(j: Json)
    requires NumberFree(j)
    ensures Printable(Print(j))
    decreases j, 0
  {
    match j
    case JString(s) => EscapeAllPrintable(s);
    case JArray(items) => if items.Items? { ItemsPrintable(items); }
    case JObject(members) => if members.Members? { MembersPrintable(members); }
    case _ =>
  }

  lemma {:induction false} ItemsPrintable(items: Items)
    requires items.Items? && NumberFreeItems(items)
    ensures Printable(PrintItems(items))
    decreases items, 1
  {
    PrintPrintable(items.head);
    if items.tail.Items? {
      ItemsPrintable(items.tail);
    }
  }

  lemma {:induction false} MembersPrintable(m: Members)
    requires m.Members? && NumberFreeMembers(m)
    ensures Printable(PrintMembers(m))
    decreases m, 1
  {
    EscapeAllPrintable(m.key);
    PrintPrintable(m.value);
    var tail := if m.rest.NoMembers? then [CLOSE_BRACE] else [COMMA, SPACE] + PrintMembers(m.rest);
    if m.rest.Members? {
      MembersPrintable(m.rest);
    }
    PrintableAppend(Print(m.value), tail);
    PrintableAppend(PrintString(m.key), [COLON, SPACE] + (Print(m.value) + tail));
  }

  /** Whatever the entry holds, the envelope is printable ASCII. */
  lemma EncodeIsAscii(e: Entry, py: Python)
    ensures Printable(Encode(e))
  {
    StringsRoundTrip(py, e.agents);
    BodyNumberFree(e.shaped, Strings(e.agents), e.runId);
    PrintPrintable(Envelope(e));
  }

  // ---- Re-encoding ---------------------------------------------------------------------------

  lemma {:induction false} GetClean(m: Members, key: Text)
    requires CleanMembers(m)
    ensures Get(m, key).Some? ==> CleanValue(Get(m, key).value)
  {
    if m.Members? {
      GetClean(m.rest, key);
    }
  }

  lemma {:induction false} StrAllClean(py: Python, items: Items)
    requires CleanItems(items) && forall j :: PairFree(py.str(j))
    ensures forall i :: 0 <= i < |StrAll(py, items)| ==> PairFree(StrAll(py, items)[i])
  {
    if items.Items? {
      StrAllClean(py, items.tail);
    }
  }

  /**
   * Reading an entry, writing it again and reading it again changes nothing, for every stored text
   * of Unicode scalar values, envelope or legacy.
   */
  lemma DecodedEntriesAreStable(raw: Text, py: Python)
    requires raw != [] && Scalar(raw) && forall j :: PairFree(py.str(j))
    ensures var e := Decode(Some(raw), py);
            e.Some? && Decode(Some(Encode(e.value)), py) == e
  {
    var e := Decode(Some(raw), py).value;
    var m := EnvelopeMembers(raw);
    if m.Some? {
      LoadsClean(raw);
      GetClean(m.value, KEY_SHAPED);
      GetClean(m.value, KEY_AGENTS);
      GetClean(m.value, KEY_RUN);
      var a := Get(m.value, KEY_AGENTS);
      if a.Some? && a.value.JArray? {
        StrAllClean(py, a.value.items);
      }
    }
    assert PairFreeEntry(e);
    RoundTripIff(e, py);
  }
}
