/** A string in a loaded value is shorter than the text it was loaded from: it stands there in quotes. */
module JsonLengths {
  import opened Sequences
  import opened Json

  lemma {:induction false} ParseStringShort(s: Text)
    requires ParseString(s).Some?
    ensures |ParseString(s).value.0| + |ParseString(s).value.1| < |s|
    decreases |s|
  {
    if s[0] != QUOTE {
      ParseStringShort(ParseChar(s).value.1);
    }
  }

  /** Every string in a value is shorter than `n`. */
  predicate ShortValue(j: Json, n: nat) {
    match j
    case JString(s) => |s| < n
    case JArray(items) => ShortItems(items, n)
    case JObject(members) => ShortMembers(members, n)
    case _ => true
  }

  predicate ShortItems(items: Items, n: nat) {
    items.Items? ==> ShortValue(items.head, n) && ShortItems(items.tail, n)
  }

  predicate ShortMembers(m: Members, n: nat) {
    m.Members? ==> ShortValue(m.value, n) && ShortMembers(m.rest, n)
  }

  lemma {:induction false} ShortGrowsValue(j: Json, n: nat, more: nat)
    requires ShortValue(j, n) && n <= more
    ensures ShortValue(j, more)
    decreases j
  {
    match j
    case JArray(items) => ShortGrowsItems(items, n, more);
    case JObject(members) => ShortGrowsMembers(members, n, more);
    case _ =>
  }

  lemma {:induction false} ShortGrowsItems(items: Items, n: nat, more: nat)
    requires ShortItems(items, n) && n <= more
    ensures ShortItems(items, more)
    decreases items
  {
    if items.Items? {
      ShortGrowsValue(items.head, n, more);
      ShortGrowsItems(items.tail, n, more);
    }
  }

  lemma {:induction false} ShortGrowsMembers(m: Members, n: nat, more: nat)
    requires ShortMembers(m, n) && n <= more
    ensures ShortMembers(m, more)
    decreases m
  {
    if m.Members? {
      ShortGrowsValue(m.value, n, more);
      ShortGrowsMembers(m.rest, n, more);
    }
  }

  /** A string in a parsed value is shorter than the text the value was parsed from. */
  lemma {:induction false} ParseValueShort(s: Text)
    ensures ParseValue(s).Some? ==> ShortValue(ParseValue(s).value.0, |s|)
    decreases |s|, 0
  {
    if s != [] && ParseValue(s).Some? {
      var t := SkipSpace(s[1..]);
      if s[0] == QUOTE {
        ParseStringShort(s[1..]);
      } else if s[0] == OPEN_BRACE {
        if t[0] != CLOSE_BRACE {
          ParseMembersShort(t);
          ShortGrowsMembers(ParseMembers(t).value.0, |t|, |s|);
        }
      } else if s[0] == OPEN_BRACKET {
        if t[0] != CLOSE_BRACKET {
          ParseItemsShort(t);
          ShortGrowsItems(ParseItems(t).value.0, |t|, |s|);
        }
      } else {
        assert ParseValue(s) == ParseLiteral(s);
      }
    }
  }

  lemma {:induction false} ParseItemsShort(s: Text)
    ensures ParseItems(s).Some? ==> ShortItems(ParseItems(s).value.0, |s|)
    decreases |s|, 1
  {
    if ParseItems(s).Some? {
      ParseValueShort(s);
      var t := SkipSpace(ParseValue(s).value.1);
      if t[0] == COMMA {
        var rest := SkipSpace(t[1..]);
        ParseItemsShort(rest);
        ShortGrowsItems(ParseItems(rest).value.0, |rest|, |s|);
      }
    }
  }

  lemma {:induction false} ParseMembersShort(s: Text)
    ensures ParseMembers(s).Some? ==> ShortMembers(ParseMembers(s).value.0, |s|)
    decreases |s|, 1
  {
    if ParseMembers(s).Some? {
      var c := SkipSpace(ParseString(s[1..]).value.1);
      var u := SkipSpace(c[1..]);
      ParseValueShort(u);
      ShortGrowsValue(ParseValue(u).value.0, |u|, |s|);
      var t := SkipSpace(ParseValue(u).value.1);
      if t[0] == COMMA {
        var rest := SkipSpace(t[1..]);
        ParseMembersShort(rest);
        ShortGrowsMembers(ParseMembers(rest).value.0, |rest|, |s|);
      }
    }
  }

  lemma LoadsShort(s: Text)
    requires Loads(s).Some?
    ensures ShortValue(Loads(s).value, |s|)
  {
    var t := SkipSpace(s);
    ParseValueShort(t);
    ShortGrowsValue(ParseValue(t).value.0, |t|, |s|);
  }
}
