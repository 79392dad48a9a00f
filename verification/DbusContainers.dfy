/** When the text that `parse_dbus_messages_json` makes of a printed reply is JSON. */
module DbusContainers {
  import opened CStrings
  import opened Json
  import opened JsonUtil
  import opened Payload
  import opened DbusMessages
  import opened DbusReply

  // ---------- replies of which every value is JSON ----------

  predicate AllGood(items: seq<Item>) {
    forall i: nat | i < |items| :: GoodItem(items[i])
  }

  predicate GoodItem(item: Item) {
    forall j: nat | j < |item.props| :: WellFormed(item.props[j].1)
  }

  /** For any reply at all the output is a JSON object, if every value printed for a variant is one JSON value. */
  lemma ReplyIsJson(raw: string)
    requires AllGood(ItemsOf(raw))
    ensures exists items :: Read(Print(ObjDoc(ReplyMembers(raw)))) ==
                            Some(Obj([Entry("items", Arr(items)), Entry("raw", Str(raw))]))
  {
    var items := ItemsOf(raw);
    var ds := ItemDocs(items);
    assert items[..|items|] == items;
    hide ItemsOf, Read, JoinMembers, AllGood, ItemDocs, ObjDoc, CompactItems;
    GoodItemDocs(items, |items|);
    GoodList(ds);
    var reply := ReplyMembers(raw);
    ObjPrinted(reply);
    ReadObject(reply);
    assert Entries(reply) == [Entry("items", Arr(Values(ds))), Entry("raw", Str(raw))];
  }

  lemma GoodList(ds: seq<Doc>)
    requires forall i: nat | i < |ds| :: WellFormed(ds[i])
    ensures WellFormed(ArrDoc(ds)) && Value(ArrDoc(ds)) == Arr(Values(ds))
  {
    CompactItemsWellFormed(ds);
    CompactItemsValue(ds);
  }

  lemma GoodItemDoc(index: nat, item: Item)
    requires GoodItem(item)
    ensures WellFormed(ObjDoc(ItemMembers(index, item)))
  {
    CompactWellFormed(item.props);
    DecIsNumber(index);
    hide Compact, IsAtom, Dec;
    CompactWellFormed(ItemMembers(index, item));
  }

  // ---------- what the reader does with the first value that is not JSON ----------

  /** An opening bracket, or a word that is no JSON value. */
  ghost predicate Breaks(token: string) {
    token == "[" || token == "{" || (token != "" && AllAtomChars(token) && !IsAtom(token))
  }

  /** What follows a value in the output. */
  predicate Follows(rest: string) {
    rest != "" && (rest[0] == ',' || rest[0] == '}' || rest[0] == ']')
  }

  lemma BrokenValue(token: string, rest: string)
    requires Breaks(token) && Follows(rest) && rest[0] != ']'
    ensures token + rest != "" && !IsWs((token + rest)[0])
    ensures ReadValue(token + rest).None? || (token == "{" && rest[0] == '}' && ReadValue(token + rest) == Some((Obj([]), rest[1..])))
  {
    hide ReadMembers, ReadItems, ReadValue, SkipWs;
    NoValue(rest);
    SkipWsPadded("", rest);
    EmptyLeft(rest);
    if token == "[" {
      DropHead("[", rest);
      BracketFails("[" + rest, rest);
    } else if token == "{" {
      DropHead("{", rest);
      if rest[0] == '}' {
        ReadObj(rest, [], rest[1..]);
      } else {
        BraceFails("{" + rest, rest);
      }
    } else {
      BrokenWord(token, rest);
    }
  }

  lemma BracketFails(s: string, t: string)
    requires s != "" && s[0] == '[' && SkipWs(s[1..]) == t && t != "" && t[0] != ']' && ReadItems(t).None?
    ensures ReadValue(s).None?
  {
    hide ReadItems, ReadMembers, ReadString, ReadAtom, SkipWs;
  }

  lemma BraceFails(s: string, t: string)
    requires s != "" && s[0] == '{' && SkipWs(s[1..]) == t && t != "" && t[0] != '}' && ReadMembers(t).None?
    ensures ReadValue(s).None?
  {
    hide ReadItems, ReadMembers, ReadString, ReadAtom, SkipWs;
  }

  lemma BrokenWord(token: string, rest: string)
    requires token != "" && AllAtomChars(token) && !IsAtom(token) && Follows(rest)
    ensures ReadValue(token + rest).None? && !IsWs((token + rest)[0])
  {
    hide IsAtom, ReadValue;
    var s := token + rest;
    SpanUnique(s, IsAtomChar, |token|);
    assert s[..|token|] == token;
    assert IsAtomChar(token[0]);
    ReadValueAtom(s);
  }

  lemma NoValue(rest: string)
    requires Follows(rest)
    ensures ReadValue(rest).None? && ReadItems(rest).None? && ReadMembers(rest).None?
  {
    SpanUnique(rest, IsAtomChar, 0);
  }

  /** A member whose value reads back leaves the outcome to the members after it. */
  lemma GoodMember(ms: seq<Member>, rest: string)
    requires |ms| > 1 && WellFormed(ms[0].1)
    ensures match ReadMembers(MembersTo(Compact(ms[1..]), rest))
            case None => ReadMembers(MembersTo(Compact(ms), rest)).None?
            case Some((_, r)) =>
              ReadMembers(MembersTo(Compact(ms), rest)).Some? && ReadMembers(MembersTo(Compact(ms), rest)).value.1 == r
  {
    var key, v := ms[0].0, ms[0].1;
    var next := MembersTo(Compact(ms[1..]), rest);
    var close := "," + next;
    MembersStart(ms[1..], rest);
    assert AfterMember(Compact(ms[1..]), rest) == close;
    hide AfterMember, MembersTo, Compact, PrintTo, QuoteTo, ReadMembers, ReadValue, WellFormed;
    PrintStarts(v, close);
    ReadPrinted(v, close);
    EmptyLeft(close);
    EmptyLeft(next);
    SkipWsPadded("", next);
    DropHead(",", next);
    var value := PrintTo(v, close);
    ReadMember(key, "", "", Value(v), value, "", close);
    MemberPrinted(ms, rest, value);
  }

  lemma MembersStart(ms: seq<Member>, rest: string)
    requires ms != []
    ensures MembersTo(Compact(ms), rest) != "" && MembersTo(Compact(ms), rest)[0] == '"'
  {
    hide PrintTo;
    EmptyLeft(MembersTo(Compact(ms), rest));
  }

  lemma MemberPrinted(ms: seq<Member>, rest: string, value: string)
    requires ms != [] && value == PrintTo(ms[0].1, AfterMember(Compact(ms[1..]), rest))
    ensures MembersTo(Compact(ms), rest) == QuoteTo(ms[0].0, "" + (":" + ("" + value)))
  {
    hide PrintTo, QuoteTo;
    EmptyLeft(AfterMember(Compact(ms[1..]), rest));
    EmptyLeft(QuoteTo(ms[0].0, "" + (":" + ("" + value))));
  }

  /** A member without a value fails. */
  lemma FailingMember(key: string, value: string)
    requires value != "" && !IsWs(value[0]) && ReadValue(value).None?
    ensures ReadMembers(QuoteTo(key, "" + (":" + ("" + value)))).None?
  {
    ReadMemberHead(key, "", "", value);
  }

  /** Reading properties fails at the first broken value, or takes the brace that closes the item for their own. */
  lemma {:induction false} PropsBroken(ms: seq<Member>, j: nat, rest: string)
    requires j < |ms| && forall k: nat | k < j :: WellFormed(ms[k].1)
    requires ms[j].1.DAtom? && Breaks(ms[j].1.text)
    ensures var r := ReadMembers(MembersTo(Compact(ms), "}" + ("}" + rest)));
      r.None? || r.value.1 == rest
    decreases |ms|
  {
    hide Breaks, ReadMembers, ReadValue;
    if j == 0 {
      FirstBroken(ms, rest);
    } else {
      assert ms[1..][j - 1] == ms[j];
      PropsBroken(ms[1..], j - 1, rest);
      GoodMember(ms, "}" + ("}" + rest));
    }
  }

  lemma FirstBroken(ms: seq<Member>, rest: string)
    requires ms != [] && ms[0].1.DAtom? && Breaks(ms[0].1.text)
    ensures var r := ReadMembers(MembersTo(Compact(ms), "}" + ("}" + rest)));
      r.None? || r.value.1 == rest
  {
    hide Breaks, ReadMembers, ReadValue;
    var token := ms[0].1.text;
    var after := AfterMember(Compact(ms[1..]), "}" + ("}" + rest));
    var value := token + after;
    BrokenValue(token, after);
    MemberPrinted(ms, "}" + ("}" + rest), value);
    if ReadValue(value).None? {
      FailingMember(ms[0].0, value);
    } else {
      DropHead("}", "}" + rest);
      DropHead("}", rest);
      EmptyLeft("}" + rest);
      ReadMember(ms[0].0, "", "", Obj([]), value, "", "}" + rest);
    }
  }

  /** After an item of the list: the next one, or the end of the list. */
  predicate FollowsItem(rest: string) {
    rest != "" && (rest[0] == ']' || (rest[0] == ',' && |rest| > 1 && rest[1] == '{'))
  }

  lemma ItemBroken(index: nat, item: Item, j: nat, rest: string)
    requires j < |item.props| && forall k: nat | k < j :: WellFormed(item.props[k].1)
    requires item.props[j].1.DAtom? && Breaks(item.props[j].1.text)
    requires FollowsItem(rest)
    ensures ReadValue(PrintTo(ObjDoc(ItemMembers(index, item)), rest)).None?
  {
    hide Breaks, ReadMembers, ReadValue, IsAtom, Dec;
    var ms := ItemMembers(index, item);
    DecIsNumber(index);
    PropertiesBroken(item.props, j, rest);
    assert ms[1..][1..] == [ms[2]] && ms[1..][0] == ms[1];
    GoodMember(ms[1..], "}" + rest);
    GoodMember(ms, "}" + rest);
    NoObject(ms, rest);
  }

  /** An object whose members cannot be read cannot be read. */
  lemma NoObject(ms: seq<Member>, rest: string)
    requires ms != [] && ReadMembers(MembersTo(Compact(ms), "}" + rest)).None?
    ensures ReadValue(PrintTo(ObjDoc(ms), rest)).None?
  {
    hide ReadMembers, ReadValue, Compact, MembersTo, SkipWs;
    var inner := MembersTo(Compact(ms), "}" + rest);
    MembersStart(ms, "}" + rest);
    EmptyLeft(inner);
    SkipWsPadded("", inner);
    DropHead("{", inner);
    BraceFails("{" + inner, inner);
  }

  lemma PropertiesBroken(props: seq<Member>, j: nat, rest: string)
    requires j < |props| && forall k: nat | k < j :: WellFormed(props[k].1)
    requires props[j].1.DAtom? && Breaks(props[j].1.text)
    requires FollowsItem(rest)
    ensures ReadMembers(MembersTo(Compact([("properties", ObjDoc(props))]), "}" + rest)).None?
  {
    hide Breaks, ReadMembers, ReadValue;
    var ms := [("properties", ObjDoc(props))];
    var value := PrintTo(ObjDoc(props), "}" + rest);
    assert ms[1..] == [];
    MemberPrinted(ms, "}" + rest, value);
    PropsBroken(props, j, rest);
    var inner := MembersTo(Compact(props), "}" + ("}" + rest));
    match ReadMembers(inner)
    case None =>
      NoObject(props, "}" + rest);
      FailingMember("properties", value);
    case Some((es, r)) =>
      WithMembers(props, es, "}" + rest, r);
      NotClosed("properties", value, Obj(es), rest);
  }

  lemma WithMembers(ms: seq<Member>, es: seq<Entry>, rest: string, r: string)
    requires ms != [] && ReadMembers(MembersTo(Compact(ms), "}" + rest)) == Some((es, r))
    ensures ReadValue(PrintTo(ObjDoc(ms), rest)) == Some((Obj(es), r))
  {
    hide ReadMembers, ReadValue, Compact, MembersTo, SkipWs;
    var inner := MembersTo(Compact(ms), "}" + rest);
    MembersStart(ms, "}" + rest);
    EmptyLeft(inner);
    SkipWsPadded("", inner);
    ReadObj(inner, es, r);
  }

  /** A member that neither a closing brace nor a further member follows fails. */
  lemma NoFurtherMember(s: string, key: string, afterKey: string, v: Json, afterValue: string)
    requires s != "" && s[0] == '"' && ReadString(s[1..]) == Some((key, afterKey))
    requires SkipWs(afterKey) != "" && SkipWs(afterKey)[0] == ':'
    requires ReadValue(SkipWs(SkipWs(afterKey)[1..])) == Some((v, afterValue))
    requires SkipWs(afterValue) != "" && SkipWs(afterValue)[0] != '}'
    requires ReadMembers(SkipWs(SkipWs(afterValue)[1..])).None? || SkipWs(afterValue)[0] != ','
    ensures ReadMembers(s).None?
  {
    hide SkipWs, ReadString, ReadValue;
  }

  /** A member that the end of the list or the next item follows stands in an object without an end. */
  lemma NotClosed(key: string, value: string, v: Json, rest: string)
    requires value != "" && !IsWs(value[0]) && ReadValue(value) == Some((v, rest)) && FollowsItem(rest)
    ensures ReadMembers(QuoteTo(key, "" + (":" + ("" + value)))).None?
  {
    hide SkipWs, ReadMembers, ReadValue, ReadString, QuoteTo;
    var afterKey := "" + (":" + ("" + value));
    ReadMemberHead(key, "", "", value);
    EmptyLeft(rest);
    SkipWsPadded("", rest);
    if rest[0] == ',' {
      NextItem(rest[1..]);
    }
    NoFurtherMember(QuoteTo(key, afterKey), key, afterKey, v, rest);
  }

  lemma NextItem(s: string)
    requires s != "" && s[0] == '{'
    ensures ReadMembers(SkipWs(s)).None?
  {
    EmptyLeft(s);
    SkipWsPadded("", s);
  }

  // ---------- the list and the reply ----------

  /** A list whose first unreadable item is `i` cannot be read. */
  lemma {:induction false} ItemsBroken(ds: seq<Doc>, i: nat, rest: string)
    requires i < |ds| && forall k: nat | k < i :: WellFormed(ds[k])
    requires forall k: nat | k < |ds| :: ds[k].DObj?
    requires ReadValue(PrintTo(ds[i], AfterItem(CompactItems(ds[i + 1..]), "]" + rest))).None?
    ensures ReadItems(ItemsTo(CompactItems(ds), "]" + rest)).None?
    decreases |ds|
  {
    var after := AfterItem(CompactItems(ds[1..]), "]" + rest);
    ItemPrinted(ds, "]" + rest);
    if i > 0 {
      var next := ItemsTo(CompactItems(ds[1..]), "]" + rest);
      assert after == "," + next;
      hide WellFormed, ReadItems, ReadValue, PrintTo, ItemsTo, AfterItem, CompactItems;
      GoodTail(ds, i);
      ItemsBroken(ds[1..], i - 1, rest);
      ItemPrinted(ds[1..], "]" + rest);
      GoodFirst(ds[0], next);
    } else {
      ReadItemsFails(PrintTo(ds[0], after));
    }
  }

  lemma GoodTail(ds: seq<Doc>, i: nat)
    requires 0 < i < |ds| && forall k: nat | k < i :: WellFormed(ds[k])
    requires forall k: nat | k < |ds| :: ds[k].DObj?
    ensures (forall k: nat | k < i - 1 :: WellFormed(ds[1..][k])) && forall k: nat | k < |ds[1..]| :: ds[1..][k].DObj?
    ensures ds[1..][i - 1] == ds[i] && ds[1..][i - 1 + 1..] == ds[i + 1..]
  {
    hide WellFormed;
    forall k: nat | k < i - 1 ensures WellFormed(ds[1..][k]) {
      assert ds[1..][k] == ds[k + 1];
    }
  }

  lemma ReadItemsFails(s: string)
    requires ReadValue(s).None?
    ensures ReadItems(s).None?
  {
    hide ReadValue;
  }

  /** An item that reads back leaves the outcome to the items after it. */
  lemma GoodFirst(d: Doc, next: string)
    requires WellFormed(d) && next != "" && next[0] == '{' && ReadItems(next).None?
    ensures ReadItems(PrintTo(d, "," + next)).None?
  {
    hide WellFormed, ReadItems, ReadValue, PrintTo;
    var after := "," + next;
    ReadPrinted(d, after);
    EmptyLeft(next);
    EmptyLeft(after);
    SkipWsPadded("", after);
    DropHead(",", next);
    SkipWsPadded("", next);
    ReadItemsStep(PrintTo(d, after), Value(d), after);
  }

  lemma ItemPrinted(ds: seq<Doc>, rest: string)
    requires ds != [] && ds[0].DObj?
    ensures ItemsTo(CompactItems(ds), rest) == PrintTo(ds[0], AfterItem(CompactItems(ds[1..]), rest))
    ensures PrintTo(ds[0], AfterItem(CompactItems(ds[1..]), rest)) != ""
    ensures PrintTo(ds[0], AfterItem(CompactItems(ds[1..]), rest))[0] == '{'
  {
    var after := AfterItem(CompactItems(ds[1..]), rest);
    EmptyLeft(after);
    EmptyLeft(PrintTo(ds[0], after));
  }

  /** Item `i` has a broken value at `j`; every value before it is JSON. */
  ghost predicate BrokenAt(items: seq<Item>, i: nat, j: nat) {
    && i < |items| && j < |items[i].props| && AllGood(items[..i])
    && (forall k: nat | k < j :: WellFormed(items[i].props[k].1))
    && items[i].props[j].1.DAtom? && Breaks(items[i].props[j].1.text)
  }

  ghost predicate Broken(items: seq<Item>) {
    exists i: nat, j: nat :: BrokenAt(items, i, j)
  }

  /** For any reply at all, a broken first bad value makes the output no JSON text. */
  lemma BrokenIsNotJson(raw: string)
    requires Broken(ItemsOf(raw))
    ensures Read(Print(ObjDoc(ReplyMembers(raw)))).None?
  {
    hide Breaks, ReadMembers, ReadItems, ReadValue, ItemsOf, WellFormed;
    var items := ItemsOf(raw);
    var i: nat, j: nat :| BrokenAt(items, i, j);
    var ds := ItemDocs(items);
    var rest := AfterMember(Compact([("raw", DStr(raw))]), "}" + "");
    ListBroken(items, i, j, rest);
    var ms := ReplyMembers(raw);
    var value := PrintTo(ms[0].1, rest);
    assert ms[1..] == [("raw", DStr(raw))];
    NoList(ds, rest);
    MemberPrinted(ms, "}" + "", value);
    FailingMember("items", value);
    NoObject(ms, "");
    EmptyLeft(Print(ObjDoc(ms)));
    SkipWsPadded("", Print(ObjDoc(ms)));
  }

  /** The text of an array whose items cannot be read. */
  lemma NoList(ds: seq<Doc>, rest: string)
    requires ds != [] && ds[0].DObj? && ReadItems(ItemsTo(CompactItems(ds), "]" + rest)).None?
    ensures var s := PrintTo(ArrDoc(ds), rest);
      s != "" && !IsWs(s[0]) && ReadValue(s).None?
  {
    var inner := ItemsTo(CompactItems(ds), "]" + rest);
    ItemPrinted(ds, "]" + rest);
    assert PrintTo(ArrDoc(ds), rest) == "[" + ("" + inner);
    hide ReadItems, ReadValue, ItemsTo, PrintTo, CompactItems;
    EmptyLeft(inner);
    NoArray(inner);
  }

  lemma NoArray(inner: string)
    requires inner != "" && inner[0] == '{' && ReadItems(inner).None?
    ensures ReadValue("[" + inner).None?
  {
    hide ReadItems, ReadValue, SkipWs;
    EmptyLeft(inner);
    SkipWsPadded("", inner);
    DropHead("[", inner);
    BracketFails("[" + inner, inner);
  }

  lemma ListBroken(items: seq<Item>, i: nat, j: nat, rest: string)
    requires BrokenAt(items, i, j)
    ensures ReadItems(ItemsTo(CompactItems(ItemDocs(items)), "]" + rest)).None?
  {
    hide Breaks, ReadItems, ReadValue, WellFormed, ItemMembers, GoodItem, CompactItems, AfterItem, ItemsTo, PrintTo,
      FollowsItem;
    var ds := ItemDocs(items);
    AfterAnItem(ds[i + 1..], "]" + rest);
    GoodItemDocs(items, i);
    ItemBroken(i + 1, items[i], j, AfterItem(CompactItems(ds[i + 1..]), "]" + rest));
    ItemsBroken(ds, i, rest);
  }

  lemma GoodItemDocs(items: seq<Item>, i: nat)
    requires i <= |items| && AllGood(items[..i])
    ensures forall k: nat | k < i :: WellFormed(ItemDocs(items)[k])
  {
    hide WellFormed, ItemMembers, GoodItem;
    forall k: nat | k < i ensures WellFormed(ItemDocs(items)[k]) {
      assert items[..i][k] == items[k];
      GoodItemDoc(k + 1, items[k]);
    }
  }

  lemma AfterAnItem(ds: seq<Doc>, close: string)
    requires close != "" && close[0] == ']' && forall k: nat | k < |ds| :: ds[k].DObj?
    ensures FollowsItem(AfterItem(CompactItems(ds), close))
  {
    if ds != [] {
      ItemPrinted(ds, close);
      DropHead(",", ItemsTo(CompactItems(ds), close));
    }
  }

  // ---------- a value once recorded stays ----------

  /** Later items may have come, and the last item may have got more properties. */
  predicate Grows(before: seq<Item>, after: seq<Item>) {
    before == [] ||
    (var last := |before| - 1;
     && |before| <= |after| && before[..last] == after[..last]
     && before[last].path == after[last].path && before[last].props <= after[last].props)
  }

  lemma StepGrows(st: State, line: string)
    ensures Grows(Finish(st), Finish(Step(st, line)))
  {
    hide QuotedAfter, VariantDoc;
    var before, after := Finish(st), Finish(Step(st, line));
    if st.current.Some? {
      assert before == st.items + [st.current.value];
      assert after[..|st.items|] == st.items;
    } else {
      assert before == st.items;
      assert before <= after;
    }
  }

  lemma GrowsTwice(a: seq<Item>, b: seq<Item>, c: seq<Item>)
    requires Grows(a, b) && Grows(b, c)
    ensures Grows(a, c)
  {
    if a != [] {
      var last := |a| - 1;
      assert a[..last] == b[..last] == c[..last] by {
        assert b[..|b| - 1][..last] == c[..|b| - 1][..last];
      }
      if |a| < |b| {
        assert b[last] == b[..|b| - 1][last] == c[..|b| - 1][last] == c[last];
      }
    }
  }

  lemma {:induction false} StepsGrow(st: State, ts: seq<string>)
    ensures Grows(Finish(st), Finish(Steps(st, ts)))
    decreases |ts|
  {
    hide Step, Finish;
    if ts != [] {
      hide Grows;
      StepGrows(st, ts[0]);
      StepsGrow(Step(st, ts[0]), ts[1..]);
      GrowsTwice(Finish(st), Finish(Step(st, ts[0])), Finish(Steps(st, ts)));
    }
  }

  lemma BrokenGrows(before: seq<Item>, after: seq<Item>)
    requires Broken(before) && Grows(before, after)
    ensures Broken(after)
  {
    hide Breaks, WellFormed, GoodItem;
    var i: nat, j: nat :| BrokenAt(before, i, j);
    assert before[..i] == after[..i] by {
      var last := |before| - 1;
      assert before[..last][..i] == after[..last][..i];
    }
    assert before[i].props <= after[i].props by {
      if i < |before| - 1 {
        assert before[i] == before[..|before| - 1][i] == after[i];
      }
    }
    assert BrokenAt(after, i, j);
  }

  // ---------- printed replies ----------

  /** A container, or a double that is no number, is recorded as a broken value. */
  lemma NotPlainBreaks(v: Variant)
    requires IsVariant(v) && !IsPlain(v)
    ensures ValueDoc(v).DAtom? && Breaks(ValueDoc(v).text)
  {
    match v {
      case VNumber(_, text) => NoNumber(text);
      case VContainer(kind, _) =>
        NoNumber("of");
        NoNumber("descriptor");
      case VVariant(_, w) =>
        WordIsPlain(w);
        WordIsNoAtom(w);
    }
  }

  lemma NoNumber(text: string)
    requires IsNotFinite(text) || text == "of" || text == "descriptor"
    ensures text != "" && AllAtomChars(text) && !IsAtom(text)
  {
    var t := if text[0] == '-' then text[1..] else text;
    SpanUnique(t, IsDigit, 0);
  }

  /** The name of a type is no JSON value. */
  lemma WordIsNoAtom(v: Variant)
    requires IsVariant(v)
    ensures !IsAtom(FirstWord(v))
  {
    WordIsPlain(v);
    hide IsText, AreLineTexts;
    SpanUnique(FirstWord(v), IsDigit, 0);
  }

  lemma PlainIsGood(v: Variant)
    requires IsVariant(v) && IsPlain(v)
    ensures WellFormed(ValueDoc(v))
  {
    hide IsNumber, IsNumeric, IsText, AreLineTexts;
  }

  lemma {:induction false} PropertiesSpoil(st: State, ps: seq<Property>, gap: string)
    requires Ready(st) && IsGap(gap) && AllGood(Finish(st))
    requires forall i: nat | i < |ps| :: IsText(ps[i].key) && IsVariant(ps[i].value)
    requires exists i: nat :: i < |ps| && !IsPlain(ps[i].value)
    ensures Broken(Finish(Steps(st, PropertiesTexts(ps, gap))))
    decreases |ps|
  {
    hide IsText, IsVariant, IsPlain, IsGap, ValueDoc, PropertyTexts, Steps, Broken, AllGood, WellFormed;
    var added := AddProp(st.current.value, (ps[0].key, ValueDoc(ps[0].value)));
    var next := st.(current := Some(added));
    var rest := PropertiesTexts(ps[1..], gap);
    if IsPlain(ps[0].value) {
      PropertyStep(st, ps[0], gap);
      StepsConcat(st, PropertyTexts(ps[0], gap), rest);
      PlainIsGood(ps[0].value);
      GoodAdded(st, ps[0].key, ValueDoc(ps[0].value));
      var i: nat :| i < |ps| && !IsPlain(ps[i].value);
      assert ps[1..][i - 1] == ps[i];
      PropertiesSpoil(next, ps[1..], gap);
    } else {
      FirstSteps(st, ps[0], gap);
      NotPlainBreaks(ps[0].value);
      BrokenAdded(st, ps[0].key, ValueDoc(ps[0].value));
      SplitFirst(ps, gap);
      var later := LaterLines(ps[0].value) + [")"] + rest;
      StepsConcat(st, FirstLines(ps[0], gap), later);
      StepsGrow(next, later);
      BrokenGrows(Finish(next), Finish(Steps(next, later)));
    }
  }

  lemma SplitFirst(ps: seq<Property>, gap: string)
    requires ps != []
    ensures PropertiesTexts(ps, gap) ==
            FirstLines(ps[0], gap) + (LaterLines(ps[0].value) + [")"] + PropertiesTexts(ps[1..], gap))
  {
    hide FirstLines, LaterLines;
  }

  lemma GoodAdded(st: State, key: string, d: Doc)
    requires st.current.Some? && AllGood(Finish(st)) && WellFormed(d)
    ensures AllGood(Finish(st.(current := Some(AddProp(st.current.value, (key, d))))))
  {
    hide WellFormed;
    var item := st.current.value;
    var items := Finish(st.(current := Some(AddProp(item, (key, d)))));
    assert GoodItem(Finish(st)[|st.items|]);
    forall i: nat | i < |items| ensures GoodItem(items[i]) {
      if i < |st.items| {
        assert items[i] == Finish(st)[i];
      }
    }
  }

  lemma BrokenAdded(st: State, key: string, d: Doc)
    requires st.current.Some? && AllGood(Finish(st)) && d.DAtom? && Breaks(d.text)
    ensures Broken(Finish(st.(current := Some(AddProp(st.current.value, (key, d))))))
  {
    hide WellFormed, Breaks;
    var items := Finish(st.(current := Some(AddProp(st.current.value, (key, d)))));
    var i := |st.items|;
    assert GoodItem(Finish(st)[i]);
    assert AllGood(items[..i]) by {
      forall k: nat | k < i ensures GoodItem(items[..i][k]) {
        assert items[..i][k] == Finish(st)[k];
      }
    }
    assert BrokenAt(items, i, |st.current.value.props|);
  }

  lemma {:induction false} MessagesSpoil(st: State, ms: seq<Message>, gap: string)
    requires st.key.None? && IsGap(gap) && AllGood(Finish(st)) && !PlainMessages(ms)
    requires forall i: nat | i < |ms| :: IsMessage(ms[i])
    ensures Broken(Finish(Steps(st, MessagesTexts(ms, gap))))
    decreases |ms|
  {
    hide Steps, IsMessage, PlainMessage, IsGap, MessageTexts, ItemOf, Broken, AllGood, Finish;
    StepsConcat(st, MessageTexts(ms[0], gap), MessagesTexts(ms[1..], gap));
    if PlainMessage(ms[0]) {
      MessageSteps(st, ms[0], gap);
      GoodMessage(st, ms[0]);
      MessagesSpoil(State(Finish(st), Some(ItemOf(ms[0])), None), ms[1..], gap);
    } else {
      MessageSpoils(st, ms[0], gap);
      var after := Steps(st, MessageTexts(ms[0], gap));
      StepsGrow(after, MessagesTexts(ms[1..], gap));
      BrokenGrows(Finish(after), Finish(Steps(after, MessagesTexts(ms[1..], gap))));
    }
  }

  lemma GoodMessage(st: State, m: Message)
    requires AllGood(Finish(st)) && IsMessage(m) && PlainMessage(m)
    ensures AllGood(Finish(State(Finish(st), Some(ItemOf(m)), None)))
  {
    hide WellFormed, IsVariant, IsPlain, ValueDoc;
    forall j: nat | j < |m.props| ensures WellFormed(ItemOf(m).props[j].1) {
      PlainIsGood(m.props[j].value);
    }
    assert GoodItem(ItemOf(m));
  }

  lemma MessageSpoils(st: State, m: Message, gap: string)
    requires st.key.None? && IsGap(gap) && AllGood(Finish(st)) && IsMessage(m) && !PlainMessage(m)
    ensures Broken(Finish(Steps(st, MessageTexts(m, gap))))
  {
    hide Steps, IsText, IsVariant, IsPlain, IsGap, PropertiesTexts, Broken;
    var begun := State(Finish(st), Some(Item(m.path, [])), None);
    OpenSteps(st, m.path);
    assert AllGood(Finish(begun)) by {
      assert GoodItem(Item(m.path, []));
    }
    hide AllGood, Finish;
    PropertiesSpoil(begun, m.props, gap);
    var filled := Steps(begun, PropertiesTexts(m.props, gap));
    StepsGrow(filled, ["]", "}"]);
    BrokenGrows(Finish(filled), Finish(Steps(filled, ["]", "}"])));
    StepsConcat(begun, PropertiesTexts(m.props, gap), ["]", "}"]);
    StepsConcat(st, ["struct {", Quoted("object path ", m.path), "array ["], PropertiesTexts(m.props, gap) + ["]", "}"]);
  }

  /**
   * The output for a printed reply is JSON exactly when no property is a container, a variant within a variant, a file
   * descriptor or a double that is no number, whatever lines stand within the containers.
   */
  lemma ReplyIsJsonIff(lines: seq<Line>, header: string, ms: seq<Message>, gap: string)
    requires IsReply(lines, header, ms, gap) && IsHeader(header) && IsGap(gap)
    requires forall i: nat | i < |ms| :: IsMessage(ms[i])
    ensures Read(Print(ObjDoc(ReplyMembers(ReplyText(lines))))).Some? <==> PlainMessages(ms)
  {
    hide IsReply, IsMessage, PlainMessages, IsHeader, IsGap, ReplyText, ReplyMembers, Read, MessageValue, ReplyTexts;
    if PlainMessages(ms) {
      MessagesReceived(lines, header, ms, gap);
    } else {
      ReplyItems(lines, header, ms, gap);
      ReplySpoils(header, ms, gap);
      BrokenIsNotJson(ReplyText(lines));
    }
  }

  lemma ReplySpoils(header: string, ms: seq<Message>, gap: string)
    requires IsHeader(header) && IsGap(gap) && !PlainMessages(ms) && forall i: nat | i < |ms| :: IsMessage(ms[i])
    ensures Broken(Finish(Steps(START, ReplyTexts(header, ms, gap))))
  {
    hide Steps, IsMessage, PlainMessages, IsGap, MessagesTexts, Broken;
    HeaderSteps(header);
    MessagesSpoil(START, ms, gap);
    var st := Steps(START, MessagesTexts(ms, gap));
    StepsGrow(st, ["]"]);
    BrokenGrows(Finish(st), Finish(Steps(st, ["]"])));
    StepsConcat(START, MessagesTexts(ms, gap), ["]"]);
    StepsConcat(START, [header, "array ["], MessagesTexts(ms, gap) + ["]"]);
  }
}
