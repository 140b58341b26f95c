/**
 * Loading a text of Unicode scalar values never produces a high surrogate right before a low one:
 * escapes may spell lone surrogates, but a pair of them is always joined.
 */
module JsonScalars {
  import opened Sequences
  import opened Json

  predicate Scalar(s: Text) {
    forall i :: 0 <= i < |s| ==> !High(s[i]) && !Low(s[i])
  }

  /** `t` is what is left of `s` after reading some of it. */
  predicate Suffix(t: Text, s: Text) {
    |t| <= |s| && t == s[|s| - |t|..]
  }

  lemma SuffixScalar(t: Text, s: Text)
    requires Suffix(t, s) && Scalar(s)
    ensures Scalar(t)
  {
  }

  lemma {:induction false} SkipSpaceSuffix(s: Text)
    ensures Suffix(SkipSpace(s), s)
  {
    if s != [] && IsSpace(s[0]) {
      SkipSpaceSuffix(s[1..]);
    }
  }

  /** Reading goes on at a low surrogate. */
  predicate LowNext(s: Text) {
    s != [] && ParseChar(s).Some? && Low(ParseChar(s).value.0)
  }

  lemma ParseCharSuffix(s: Text)
    requires s != [] && ParseChar(s).Some?
    ensures Suffix(ParseChar(s).value.1, s)
  {
  }

  /** A low surrogate can only come from its own escape. */
  lemma LowIsEscaped(s: Text)
    requires Scalar(s) && LowNext(s)
    ensures |s| >= 6 && s[0] == BACKSLASH && s[1] == LOWER_U && FourHex(s[2..]) >= 0 && Low(FourHex(s[2..]))
  {
  }

  /** A high surrogate is never followed by a low one: the pair would have been read as one. */
  lemma HighThenNotLow(s: Text)
    requires Scalar(s) && s != [] && ParseChar(s).Some? && High(ParseChar(s).value.0)
    ensures !LowNext(ParseChar(s).value.1)
  {
    var after := ParseChar(s).value.1;
    ParseCharSuffix(s);
    SuffixScalar(after, s);
    if LowNext(after) {
      LowIsEscaped(after);
    }
  }

  lemma {:induction false} ParseStringClean(s: Text)
    requires Scalar(s) && ParseString(s).Some?
    ensures Suffix(ParseString(s).value.1, s) && PairFree(ParseString(s).value.0)
    decreases |s|
  {
    if s[0] != QUOTE {
      var (c, after) := ParseChar(s).value;
      ParseCharSuffix(s);
      SuffixScalar(after, s);
      ParseStringClean(after);
      var t := ParseString(after).value.0;
      if High(c) {
        HighThenNotLow(s);
        assert t != [] ==> t[0] == ParseChar(after).value.0;
      }
      ConsPairFree(c, t);
      SuffixTrans(ParseString(after).value.1, after, s);
    }
  }

  lemma ConsPairFree(c: Code, t: Text)
    requires PairFree(t) && (High(c) && t != [] ==> !Low(t[0]))
    ensures PairFree([c] + t)
  {
  }

  lemma SuffixTrans(t: Text, u: Text, s: Text)
    requires Suffix(t, u) && Suffix(u, s)
    ensures Suffix(t, s)
  {
  }

  /** Every string in a value is free of such pairs. */
  predicate CleanValue(j: Json) {
    match j
    case JString(s) => PairFree(s)
    case JArray(items) => CleanItems(items)
    case JObject(members) => CleanMembers(members)
    case _ => true
  }

  predicate CleanItems(items: Items) {
    items.Items? ==> CleanValue(items.head) && CleanItems(items.tail)
  }

  predicate CleanMembers(m: Members) {
    m.Members? ==> PairFree(m.key) && CleanValue(m.value) && CleanMembers(m.rest)
  }

  lemma {:induction false} SkipScalar(s: Text)
    requires Scalar(s)
    ensures Scalar(SkipSpace(s))
    ensures s != [] ==> Scalar(s[1..]) && Scalar(SkipSpace(s[1..]))
  {
    SkipSpaceSuffix(s);
    SuffixScalar(SkipSpace(s), s);
    if s != [] {
      SkipSpaceSuffix(s[1..]);
      SuffixScalar(SkipSpace(s[1..]), s[1..]);
    }
  }

  lemma {:induction false} ParseValueClean(s: Text)
    requires Scalar(s) && ParseValue(s).Some?
    ensures Scalar(ParseValue(s).value.1) && CleanValue(ParseValue(s).value.0)
    decreases |s|, 0
  {
    SkipScalar(s);
    var t := SkipSpace(s[1..]);
    if s[0] == QUOTE {
      ParseStringClean(s[1..]);
      SuffixScalar(ParseString(s[1..]).value.1, s[1..]);
    } else if s[0] == OPEN_BRACE {
      if t[0] != CLOSE_BRACE {
        ParseMembersClean(t);
      } else {
        TailScalar(t);
      }
    } else if s[0] == OPEN_BRACKET {
      if t[0] != CLOSE_BRACKET {
        ParseItemsClean(t);
      } else {
        TailScalar(t);
      }
    } else {
      ParseLiteralClean(s);
    }
  }

  lemma TailScalar(t: Text)
    requires t != [] && Scalar(t)
    ensures Scalar(t[1..])
  {
  }

  /** Literals and numbers hold no strings. */
  lemma ParseLiteralClean(s: Text)
    requires Scalar(s) && ParseValue(s).Some?
    requires s[0] != QUOTE && s[0] != OPEN_BRACE && s[0] != OPEN_BRACKET
    ensures Scalar(ParseValue(s).value.1) && CleanValue(ParseValue(s).value.0)
  {
    assert ParseValue(s) == ParseLiteral(s);
    SuffixScalar(ParseLiteral(s).value.1, s);
  }

  lemma {:induction false} ParseItemsClean(s: Text)
    requires Scalar(s) && ParseItems(s).Some?
    ensures Scalar(ParseItems(s).value.1) && CleanItems(ParseItems(s).value.0)
    decreases |s|, 1
  {
    ParseValueClean(s);
    var t := SkipSpace(ParseValue(s).value.1);
    SkipScalar(ParseValue(s).value.1);
    SkipScalar(t);
    if t[0] == COMMA {
      ParseItemsClean(SkipSpace(t[1..]));
    }
  }

  lemma {:induction false} ParseMembersClean(s: Text)
    requires Scalar(s)
    ensures ParseMembers(s).Some? ==> Scalar(ParseMembers(s).value.1) && CleanMembers(ParseMembers(s).value.0)
    decreases |s|, 1
  {
    if ParseMembers(s).Some? {
      var k := ParseString(s[1..]).value;
      SkipScalar(s);
      ParseStringClean(s[1..]);
      SuffixScalar(k.1, s[1..]);
      var c := SkipSpace(k.1);
      SkipScalar(k.1);
      SkipScalar(c);
      var v := ParseValue(SkipSpace(c[1..])).value;
      ParseValueClean(SkipSpace(c[1..]));
      var t := SkipSpace(v.1);
      SkipScalar(v.1);
      SkipScalar(t);
      if t[0] == COMMA {
        ParseMembersClean(SkipSpace(t[1..]));
      }
    }
  }

  lemma LoadsClean(s: Text)
    requires Scalar(s) && Loads(s).Some?
    ensures CleanValue(Loads(s).value)
  {
    SkipScalar(s);
    ParseValueClean(SkipSpace(s));
  }

  /** A text of Unicode scalar values has no surrogates at all. */
  lemma ScalarIsPairFree(s: Text)
    requires Scalar(s)
    ensures PairFree(s)
  {
  }
}
