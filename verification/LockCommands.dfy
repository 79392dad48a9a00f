/** src/http.c: the commands that the cell, frequency and band lock requests build from the profile's templates. */
module LockCommands {
  import opened CStrings
  import opened CharArrays
  import opened JsonUtil
  import opened Template
  import opened Chains

  datatype Outcome = Rejected(reason: string) | Send(command: string)

  /** Every buffer of a chain has 512 bytes. */
  const STAGE_MAX: nat := 511

  /** A number in the request, printed with `%d`. */
  function Number(body: string, key: string, default: int): string {
    Dec(IntegerValue(body, key, default))
  }

  function CellTokens(mode: string, rat: string, kind: string, earfcn: string, pci: string): (bs: seq<Binding>)
    ensures AreTokens(bs)
  {
    var bs := [ Binding("{mode}", mode), Binding("{rat}", rat), Binding("{type}", kind), Binding("{earfcn}", earfcn),
                Binding("{pci}", pci) ];
    FiveTokens(bs);
    bs
  }

  function FrequencyTokens(mode: string, rat: string, earfcn: string): (bs: seq<Binding>)
    ensures AreTokens(bs)
  {
    var bs := [Binding("{mode}", mode), Binding("{rat}", rat), Binding("{earfcn}", earfcn)];
    ThreeTokens(bs);
    bs
  }

  function CellBindings(body: string): (bs: seq<Binding>)
    ensures AreTokens(bs)
  {
    CellTokens(Number(body, "mode", 1), Number(body, "rat", 0), Number(body, "type", 1), Number(body, "earfcn", -1),
               Number(body, "pci", -1))
  }

  function FrequencyBindings(body: string): (bs: seq<Binding>)
    ensures AreTokens(bs)
  {
    FrequencyTokens(Number(body, "mode", 1), Number(body, "rat", 0), Number(body, "earfcn", -1))
  }

  function BandBindings(mode: string, rat: string, pref: string, bands: string): (bs: seq<Binding>)
    ensures AreTokens(bs)
  {
    var bs :=
      [ Binding("{mode}", mode), Binding("{rat}", rat), Binding("{preferred_rat}", pref), Binding("{bands}", bands) ];
    FourTokens(bs);
    bs
  }

  /** A missing template and an empty one are the same. */
  predicate IsMissing(tmpl: Option<string>) {
    tmpl.None? || tmpl.value == ""
  }

  function CellOutcome(body: string, tmpl: Option<string>): Outcome {
    if IntegerValue(body, "confirm", 0) == 0 then Rejected("confirm is required")
    else if IntegerValue(body, "earfcn", -1) < 0 || IntegerValue(body, "pci", -1) < 0 then
      Rejected("earfcn and pci are required")
    else if IsMissing(tmpl) then Rejected("cell lock template not configured")
    else
      Send(Chain(tmpl.value, CellBindings(body), STAGE_MAX))
  }

  const FREQUENCY_DEFAULT := "AT+GTCELLLOCK={mode},{rat},1,{earfcn}"

  function FrequencyTemplate(tmpl: Option<string>): string {
    if IsMissing(tmpl) then FREQUENCY_DEFAULT else tmpl.value
  }

  function FrequencyOutcome(body: string, tmpl: Option<string>): Outcome {
    if IntegerValue(body, "confirm", 0) == 0 then Rejected("confirm is required")
    else if IntegerValue(body, "earfcn", -1) < 0 then Rejected("earfcn is required")
    else
      Send(Chain(FrequencyTemplate(tmpl), FrequencyBindings(body), STAGE_MAX))
  }

  function BandOutcome(body: string, tmpl: Option<string>): Outcome {
    if IntegerValue(body, "confirm", 0) == 0 then Rejected("confirm is required")
    else
      match (StringValue(body, "mode"), StringValue(body, "rat"), StringValue(body, "preferred_rat"),
             StringValue(body, "bands"))
      case (Some(mode), Some(rat), Some(pref), Some(bands)) =>
        if IsMissing(tmpl) then Rejected("mode, rat, preferred_rat and bands are required") else
        Send(Chain(tmpl.value, BandBindings(mode, rat, pref, bands), STAGE_MAX))
      case _ => Rejected("mode, rat, preferred_rat and bands are required")
  }

  // ---------- the tokens ----------

  lemma FiveTokens(bs: seq<Binding>)
    requires |bs| == 5 && bs[0].token == "{mode}" && bs[1].token == "{rat}" && bs[2].token == "{type}"
    requires bs[3].token == "{earfcn}" && bs[4].token == "{pci}"
    ensures AreTokens(bs)
  {
    assert IsToken("{mode}") && IsToken("{rat}") && IsToken("{type}") && IsToken("{earfcn}") && IsToken("{pci}");
  }

  lemma FourTokens(bs: seq<Binding>)
    requires |bs| == 4 && bs[0].token == "{mode}" && bs[1].token == "{rat}"
    requires bs[2].token == "{preferred_rat}" && bs[3].token == "{bands}"
    ensures AreTokens(bs)
  {
    assert IsToken("{mode}") && IsToken("{rat}") && IsToken("{preferred_rat}") && IsToken("{bands}");
  }

  lemma ThreeTokens(bs: seq<Binding>)
    requires |bs| == 3 && bs[0].token == "{mode}" && bs[1].token == "{rat}" && bs[2].token == "{earfcn}"
    ensures AreTokens(bs)
  {
    assert IsToken("{mode}") && IsToken("{rat}") && IsToken("{earfcn}");
  }

  // ---------- the handlers ----------

  /** One buffer of a chain: a token replaced in the text of the buffer before it. */
  method Stage(src: string, token: string, value: string) returns (text: string)
    requires token != "" && NulFree(src) && NulFree(value)
    ensures text == Take(ReplaceAll(src, token, value), STAGE_MAX) && NulFree(text)
  {
    var dst := new char[512];
    ReplaceToken(dst, src, token, value);
    text := ReadString(dst, 0, Take(ReplaceAll(src, token, value), STAGE_MAX));
  }

  /** A number of the request in a buffer of 32 bytes. */
  method PrintNumber(body: string, key: string, default: int) returns (text: string)
    requires IsInt(default)
    ensures text == Number(body, key, default) && NulFree(text)
    ensures Atoi(text) == IntegerValue(body, key, default)
  {
    var n := JsonGetInt(body, key, default);
    text := Take(Dec(n), 31);
    DecLength(n);
    AtoiDec(n, "");
    assert Dec(n) + "" == Dec(n);
    NumberIsPlain(n);
  }

  lemma NumberIsPlain(n: int)
    ensures NulFree(Dec(n)) && '{' !in Dec(n)
  {
    assert forall i: nat | i < |Dec(n)| :: Dec(n)[i] in Dec(n);
  }

  lemma ChainCons(t: string, b: Binding, bs: seq<Binding>, max: nat)
    requires AreTokens([b] + bs)
    ensures AreTokens(bs) && b.token != ""
    ensures Chain(t, [b] + bs, max) == Chain(Take(ReplaceAll(t, b.token, b.value), max), bs, max)
  {
    assert ([b] + bs)[1..] == bs;
    assert b in [b] + bs && forall c | c in bs :: c in [b] + bs;
  }

  lemma ChainEnd(t: string, max: nat)
    ensures Chain(t, [], max) == t
  {}

  method LockCell(body: string, tmpl: Option<string>) returns (r: Outcome)
    requires tmpl.Some? ==> NulFree(tmpl.value)
    ensures r == CellOutcome(body, tmpl)
  {
    hide Number, IntegerValue, Atoi, NulFree, Chain, ReplaceAll, Take;
    var confirm := JsonGetInt(body, "confirm", 0);
    if confirm == 0 {
      return Rejected("confirm is required");
    }
    var mode := PrintNumber(body, "mode", 1);
    var rat := PrintNumber(body, "rat", 0);
    var kind := PrintNumber(body, "type", 1);
    var earfcn := PrintNumber(body, "earfcn", -1);
    var pci := PrintNumber(body, "pci", -1);
    if Atoi(earfcn) < 0 || Atoi(pci) < 0 {
      return Rejected("earfcn and pci are required");
    }
    if IsMissing(tmpl) {
      return Rejected("cell lock template not configured");
    }
    var cmd := CellCommand(tmpl.value, mode, rat, kind, earfcn, pci, CellBindings(body));
    r := Send(cmd);
  }

  method CellCommand(tmpl: string, mode: string, rat: string, kind: string, earfcn: string, pci: string,
                     ghost bs: seq<Binding>) returns (cmd: string)
    requires NulFree(tmpl) && NulFree(mode) && NulFree(rat) && NulFree(kind) && NulFree(earfcn) && NulFree(pci)
    requires bs == [Binding("{mode}", mode), Binding("{rat}", rat), Binding("{type}", kind),
                    Binding("{earfcn}", earfcn), Binding("{pci}", pci)]
    ensures AreTokens(bs) && cmd == Chain(tmpl, bs, STAGE_MAX)
  {
    hide NulFree, Chain, ReplaceAll, Take, AreTokens;
    assert AreTokens(bs) by {
      FiveTokens(bs);
    }
    ghost var c5 := [Binding("{pci}", pci)];
    ghost var c4 := [Binding("{earfcn}", earfcn)] + c5;
    ghost var c3 := [Binding("{type}", kind)] + c4;
    ghost var c2 := [Binding("{rat}", rat)] + c3;
    assert bs == [Binding("{mode}", mode)] + c2;
    var a := Stage(tmpl, "{mode}", mode);
    ChainCons(tmpl, bs[0], c2, STAGE_MAX);
    var b := Stage(a, "{rat}", rat);
    ChainCons(a, bs[1], c3, STAGE_MAX);
    var c := Stage(b, "{type}", kind);
    ChainCons(b, bs[2], c4, STAGE_MAX);
    var d := Stage(c, "{earfcn}", earfcn);
    ChainCons(c, bs[3], c5, STAGE_MAX);
    var e := Stage(d, "{pci}", pci);
    assert c5 == [bs[4]] + [];
    ChainCons(d, bs[4], [], STAGE_MAX);
    ChainEnd(e, STAGE_MAX);
    cmd := Take(e, STAGE_MAX);
    TakeTwice(ReplaceAll(d, "{pci}", pci), STAGE_MAX);
  }

  lemma TakeTwice(s: string, n: nat)
    ensures Take(Take(s, n), n) == Take(s, n)
  {}

  method LockFrequency(body: string, tmpl: Option<string>) returns (r: Outcome)
    requires tmpl.Some? ==> NulFree(tmpl.value)
    ensures r == FrequencyOutcome(body, tmpl)
  {
    hide Number, IntegerValue, Atoi, Chain, ReplaceAll, Take, AreTokens;
    var confirm := JsonGetInt(body, "confirm", 0);
    if confirm == 0 {
      return Rejected("confirm is required");
    }
    var mode := PrintNumber(body, "mode", 1);
    var rat := PrintNumber(body, "rat", 0);
    var earfcn := PrintNumber(body, "earfcn", -1);
    if Atoi(earfcn) < 0 {
      return Rejected("earfcn is required");
    }
    var t := FREQUENCY_DEFAULT;
    if !IsMissing(tmpl) {
      t := tmpl.value;
    }
    assert NulFree(t);
    hide NulFree;
    ghost var bs := FrequencyBindings(body);
    ghost var c3 := [bs[2]];
    ghost var c2 := [bs[1]] + c3;
    assert bs == [bs[0]] + c2 && c3 == [bs[2]] + [];
    var a := Stage(t, "{mode}", mode);
    ChainCons(t, bs[0], c2, STAGE_MAX);
    var b := Stage(a, "{rat}", rat);
    ChainCons(a, bs[1], c3, STAGE_MAX);
    var cmd := Stage(b, "{earfcn}", earfcn);
    ChainCons(b, bs[2], [], STAGE_MAX);
    ChainEnd(cmd, STAGE_MAX);
    r := Send(cmd);
  }

  method LockBand(body: string, tmpl: Option<string>) returns (r: Outcome)
    requires NulFree(body) && (tmpl.Some? ==> NulFree(tmpl.value))
    ensures r == BandOutcome(body, tmpl)
  {
    hide IntegerValue, StringValue, NulFree, Chain, BandBindings;
    var confirm := JsonGetInt(body, "confirm", 0);
    if confirm == 0 {
      return Rejected("confirm is required");
    }
    var mode := JsonGetString(body, "mode");
    var rat := JsonGetString(body, "rat");
    var pref := JsonGetString(body, "preferred_rat");
    var bands := JsonGetString(body, "bands");
    if mode.None? || rat.None? || pref.None? || bands.None? || IsMissing(tmpl) {
      return Rejected("mode, rat, preferred_rat and bands are required");
    }
    StringNulFree(body, "mode");
    StringNulFree(body, "rat");
    StringNulFree(body, "preferred_rat");
    StringNulFree(body, "bands");
    var cmd := BandCommand(tmpl.value, mode.value, rat.value, pref.value, bands.value);
    r := Send(cmd);
  }

  method BandCommand(tmpl: string, mode: string, rat: string, pref: string, bands: string) returns (cmd: string)
    requires NulFree(tmpl) && NulFree(mode) && NulFree(rat) && NulFree(pref) && NulFree(bands)
    ensures cmd == Chain(tmpl, BandBindings(mode, rat, pref, bands), STAGE_MAX)
  {
    hide NulFree, Chain, ReplaceAll, Take, AreTokens;
    ghost var bs := BandBindings(mode, rat, pref, bands);
    ghost var c4 := [bs[3]];
    ghost var c3 := [bs[2]] + c4;
    ghost var c2 := [bs[1]] + c3;
    assert bs == [bs[0]] + c2 && c4 == [bs[3]] + [];
    var a := Stage(tmpl, "{mode}", mode);
    ChainCons(tmpl, bs[0], c2, STAGE_MAX);
    var b := Stage(a, "{rat}", rat);
    ChainCons(a, bs[1], c3, STAGE_MAX);
    var c := Stage(b, "{preferred_rat}", pref);
    ChainCons(b, bs[2], c4, STAGE_MAX);
    cmd := Stage(c, "{bands}", bands);
    ChainCons(c, bs[3], [], STAGE_MAX);
    ChainEnd(cmd, STAGE_MAX);
  }

  lemma {:induction false} DecodeNulFree(s: string)
    requires NulFree(s)
    ensures NulFree(Decode(s))
  {
    if s == "" || s[0] == '"' {
    } else if s[0] == '\\' && |s| > 1 {
      DecodeNulFree(s[2..]);
    } else {
      DecodeNulFree(s[1..]);
    }
  }

  lemma StringNulFree(body: string, key: string)
    requires NulFree(body)
    ensures StringValue(body, key).Some? ==> NulFree(StringValue(body, key).value)
  {
    hide Decode, Needle;
    match FindKeyValue(body, key)
    case None =>
    case Some(v) =>
      assert NulFree(v);
      if v != "" {
        DecodeNulFree(v[1..]);
      }
  }

  // ---------- what the commands mean ----------

  predicate HasNoDigit(token: string) {
    forall i: nat | i < |token| :: token[i] != '-' && !IsDigit(token[i])
  }

  lemma NumberInert(body: string, key: string, default: int, token: string)
    requires HasNoDigit(token)
    ensures Inert(Number(body, key, default), token)
  {
    var s := Number(body, key, default);
    NumberIsPlain(IntegerValue(body, key, default));
    assert s[0] in s;
  }

  lemma TokensHaveNoDigit()
    ensures HasNoDigit("{mode}") && HasNoDigit("{rat}") && HasNoDigit("{type}")
    ensures HasNoDigit("{earfcn}") && HasNoDigit("{pci}")
  {}

  /** What holds of every two bindings of a request with numbers. */
  predicate NoClash(bs: seq<Binding>) {
    forall b, c | b in bs && c in bs :: !Clashes(b.value, c.token, STAGE_MAX)
  }

  lemma InertNoClash(bs: seq<Binding>)
    requires AreTokens(bs) && forall b, c | b in bs && c in bs :: Inert(b.value, c.token)
    ensures NoClash(bs) && Compatible(bs, STAGE_MAX)
  {
    hide IsToken, Inert, Clashes;
    forall b, c | b in bs && c in bs ensures !Clashes(b.value, c.token, STAGE_MAX) {
      InertFits(b.value, c.token, STAGE_MAX);
    }
  }

  lemma CellNoClash(body: string)
    ensures NoClash(CellBindings(body)) && Compatible(CellBindings(body), STAGE_MAX)
  {
    hide HasNoDigit, Number, Inert, IsToken;
    TokensHaveNoDigit();
    var bs := CellBindings(body);
    forall b, c | b in bs && c in bs ensures Inert(b.value, c.token) {
      NumberInert(body, "mode", 1, c.token);
      NumberInert(body, "rat", 0, c.token);
      NumberInert(body, "type", 1, c.token);
      NumberInert(body, "earfcn", -1, c.token);
      NumberInert(body, "pci", -1, c.token);
    }
    InertNoClash(bs);
  }

  lemma FrequencyNoClash(body: string)
    ensures NoClash(FrequencyBindings(body)) && Compatible(FrequencyBindings(body), STAGE_MAX)
  {
    hide HasNoDigit, Number, Inert, IsToken;
    TokensHaveNoDigit();
    var bs := FrequencyBindings(body);
    forall b, c | b in bs && c in bs ensures Inert(b.value, c.token) {
      NumberInert(body, "mode", 1, c.token);
      NumberInert(body, "rat", 0, c.token);
      NumberInert(body, "earfcn", -1, c.token);
    }
    InertNoClash(bs);
  }

  /** The cell lock command is the template with every token replaced at once, whatever the template. */
  lemma CellIsSubst(body: string, tmpl: string)
    requires IntegerValue(body, "confirm", 0) != 0
    requires IntegerValue(body, "earfcn", -1) >= 0 && IntegerValue(body, "pci", -1) >= 0 && tmpl != ""
    requires StagesFit(tmpl, CellBindings(body), STAGE_MAX)
    ensures CellOutcome(body, Some(tmpl)) == Send(Take(Subst(tmpl, CellBindings(body)), STAGE_MAX))
  {
    CellNoClash(body);
    hide Number, Subst, Chain, NoClash, Compatible, IsToken, StagesFit;
    ChainIsSubst(tmpl, CellBindings(body), STAGE_MAX);
  }

  /** Replacing the tokens in any other order builds the same command. */
  lemma CellOrder(body: string, tmpl: string, bs: seq<Binding>)
    requires AreTokens(bs) && forall b :: b in bs <==> b in CellBindings(body)
    requires StagesFit(tmpl, CellBindings(body), STAGE_MAX) && StagesFit(tmpl, bs, STAGE_MAX)
    ensures Chain(tmpl, bs, STAGE_MAX) == Chain(tmpl, CellBindings(body), STAGE_MAX)
  {
    CellNoClash(body);
    DistinctTokens();
    hide Number, Subst, Chain, Clashes, IsToken, StagesFit;
    var cs := CellBindings(body);
    assert cs[0] in bs;
    assert Consistent(cs);
    ChainOrder(tmpl, cs, bs, STAGE_MAX);
  }

  lemma DistinctTokens()
    ensures "{mode}" != "{rat}" && "{mode}" != "{type}" && "{mode}" != "{earfcn}" && "{mode}" != "{pci}"
    ensures "{rat}" != "{type}" && "{rat}" != "{earfcn}" && "{rat}" != "{pci}"
    ensures "{type}" != "{earfcn}" && "{type}" != "{pci}" && "{earfcn}" != "{pci}"
  {
    assert "{mode}"[1] == 'm' && "{rat}"[1] == 'r' && "{type}"[1] == 't' && "{earfcn}"[1] == 'e' && "{pci}"[1] == 'p';
  }

  lemma FrequencyIsSubst(body: string, tmpl: Option<string>)
    requires IntegerValue(body, "confirm", 0) != 0 && IntegerValue(body, "earfcn", -1) >= 0
    requires StagesFit(FrequencyTemplate(tmpl), FrequencyBindings(body), STAGE_MAX)
    ensures FrequencyOutcome(body, tmpl) ==
            Send(Take(Subst(FrequencyTemplate(tmpl), FrequencyBindings(body)), STAGE_MAX))
  {
    FrequencyNoClash(body);
    hide Number, Subst, Chain, NoClash, Compatible, IsToken, StagesFit;
    ChainIsSubst(FrequencyTemplate(tmpl), FrequencyBindings(body), STAGE_MAX);
  }

  lemma FrequencyOrder(body: string, tmpl: string, bs: seq<Binding>)
    requires AreTokens(bs) && forall b :: b in bs <==> b in FrequencyBindings(body)
    requires StagesFit(tmpl, FrequencyBindings(body), STAGE_MAX) && StagesFit(tmpl, bs, STAGE_MAX)
    ensures Chain(tmpl, bs, STAGE_MAX) == Chain(tmpl, FrequencyBindings(body), STAGE_MAX)
  {
    FrequencyNoClash(body);
    DistinctTokens();
    hide Number, Subst, Chain, Clashes, IsToken, StagesFit;
    var cs := FrequencyBindings(body);
    assert cs[0] in bs;
    assert Consistent(cs);
    ChainOrder(tmpl, cs, bs, STAGE_MAX);
  }

  /** The band lock command takes its values as they come: it is a substitution when none clashes with a later token. */
  lemma BandIsSubst(mode: string, rat: string, pref: string, bands: string, tmpl: string)
    requires Compatible(BandBindings(mode, rat, pref, bands), STAGE_MAX)
    requires StagesFit(tmpl, BandBindings(mode, rat, pref, bands), STAGE_MAX)
    ensures Chain(tmpl, BandBindings(mode, rat, pref, bands), STAGE_MAX) ==
            Take(Subst(tmpl, BandBindings(mode, rat, pref, bands)), STAGE_MAX)
  {
    hide Subst, Chain, Compatible, IsToken, StagesFit;
    ChainIsSubst(tmpl, BandBindings(mode, rat, pref, bands), STAGE_MAX);
  }

  lemma BandTokens(bs: seq<Binding>)
    requires |bs| == 4 && bs[0].token == "{mode}" && bs[1].token == "{rat}"
    requires bs[2].token == "{preferred_rat}" && bs[3].token == "{bands}"
    ensures Distinct(bs) && TokensFit(bs, STAGE_MAX)
  {
    assert bs[0].token[1] == 'm' && bs[1].token[1] == 'r' && bs[2].token[1] == 'p' && bs[3].token[1] == 'b';
  }

  /** All values but the mode are lighter than their tokens: none holds an opening brace, or none a closing brace, or
      each is shorter than its token. */
  predicate LightValues(bs: seq<Binding>) {
    || (forall k: nat | 0 < k < |bs| :: '{' !in bs[k].value)
    || (forall k: nat | 0 < k < |bs| :: '}' !in bs[k].value)
    || (forall k: nat | 0 < k < |bs| :: |bs[k].value| < |bs[k].token|)
  }

  lemma LightIsLighter(bs: seq<Binding>) returns (f: char -> nat)
    requires AreTokens(bs) && LightValues(bs)
    ensures Lighter(bs, 1, f)
  {
    hide Weight, IsToken;
    if forall k: nat | 0 < k < |bs| :: '{' !in bs[k].value {
      f := c => if c == '{' then 1 else 0;
      forall k: nat | 0 < k < |bs| ensures Weight(bs[k].value, f) < Weight(bs[k].token, f) {
        TokenHasBraces(bs[k].token);
        WeightOfChar(bs[k].value, '{', f);
        WeightOfChar(bs[k].token, '{', f);
      }
    } else if forall k: nat | 0 < k < |bs| :: '}' !in bs[k].value {
      f := c => if c == '}' then 1 else 0;
      forall k: nat | 0 < k < |bs| ensures Weight(bs[k].value, f) < Weight(bs[k].token, f) {
        TokenHasBraces(bs[k].token);
        WeightOfChar(bs[k].value, '}', f);
        WeightOfChar(bs[k].token, '}', f);
      }
    } else {
      f := c => 1;
      forall k: nat | 0 < k < |bs| ensures Weight(bs[k].value, f) < Weight(bs[k].token, f) {
        WeightIsLength(bs[k].value, f);
        WeightIsLength(bs[k].token, f);
      }
    }
  }

  lemma TokenHasBraces(token: string)
    requires IsToken(token)
    ensures '{' in token && '}' in token
  {}

  lemma {:induction false} WeightOfChar(s: string, c: char, f: char -> nat)
    requires forall d: char :: f(d) == if d == c then 1 else 0
    ensures Weight(s, f) > 0 <==> c in s
  {
    if s != "" {
      WeightOfChar(s[1..], c, f);
    }
  }

  lemma {:induction false} WeightIsLength(s: string, f: char -> nat)
    requires forall d: char :: f(d) == 1
    ensures Weight(s, f) == |s|
  {
    if s != "" {
      WeightIsLength(s[1..], f);
    }
  }

  /** And only then: some template exposes every clash, whatever the mode, if the other values are light. */
  lemma BandIsSubstIff(mode: string, rat: string, pref: string, bands: string)
    requires LightValues(BandBindings(mode, rat, pref, bands))
    ensures (forall tmpl :: IsPass(tmpl, BandBindings(mode, rat, pref, bands), STAGE_MAX)) <==>
            Compatible(BandBindings(mode, rat, pref, bands), STAGE_MAX)
  {
    var bs := BandBindings(mode, rat, pref, bands);
    BandTokens(bs);
    hide IsToken, Distinct, TokensFit, Compatible, IsPass, LightValues;
    var f := LightIsLighter(bs);
    ChainIsSubstIff(bs, STAGE_MAX, f);
  }

  lemma NothingAround(s: string)
    ensures Framed("", s, "") == s
  {}

  /** A mode that contains the token of a later value is changed by it already in the template `{mode}`. */
  lemma BandNotSubst(mode: string, rat: string, pref: string, bands: string, j: nat)
    requires LightValues(BandBindings(mode, rat, pref, bands)) && 0 < j < 4 && |mode| <= STAGE_MAX
    requires Find(mode, BandBindings(mode, rat, pref, bands)[j].token).Some?
    ensures var bs := BandBindings(mode, rat, pref, bands);
      StagesFit("{mode}", bs, STAGE_MAX) && Subst("{mode}", bs) == mode && Chain("{mode}", bs, STAGE_MAX) != mode
  {
    var bs := BandBindings(mode, rat, pref, bands);
    BandTokens(bs);
    hide IsToken, Distinct, TokensFit, Find, Chain, Subst, StagesFit, LightValues, Lighter, Framed;
    NothingAround(bs[0].token);
    NothingAround(mode);
    var f := LightIsLighter(bs);
    FramedDiffers("", "", bs, 0, j, STAGE_MAX, f);
  }
}
