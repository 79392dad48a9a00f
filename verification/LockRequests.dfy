/** src/http.c: the lock commands in terms of the JSON tree of a request, whatever its layout. */
module LockRequests {
  import opened CStrings
  import opened Json
  import J = Json
  import opened JsonUtil
  import opened ProfileLookup
  import opened Template
  import opened Chains
  import opened LockCommands

  /** The text of a request: a document with any layout, in which the key can be searched for. */
  predicate IsRequest(before: string, d: Doc, after: string) {
    WellFormed(d) && AllWs(before) && AllWs(after)
  }

  lemma NumberOfTree(before: string, d: Doc, after: string, key: string, default: int)
    requires IsRequest(before, d, after) && Searchable(d, key) && |key| <= 20
    ensures IntegerValue(Printed(before, d, after), key, default) == TreeInteger(J.Value(d), key, default)
    ensures Number(Printed(before, d, after), key, default) == Dec(TreeInteger(J.Value(d), key, default))
  {
    hide IntegerValue, TreeInteger, Printed, Searchable, J.Value;
    IntegerInDoc(before, d, after, key, default);
  }

  // ---------- the cell lock ----------

  /** The keys of the request have no more than 20 characters. */
  lemma CellKeys()
    ensures |"confirm"| <= 20 && |"mode"| <= 20 && |"rat"| <= 20 && |"type"| <= 20 && |"earfcn"| <= 20 && |"pci"| <= 20
  {}

  predicate CellSearchable(d: Doc) {
    && Searchable(d, "confirm") && Searchable(d, "mode") && Searchable(d, "rat") && Searchable(d, "type")
    && Searchable(d, "earfcn") && Searchable(d, "pci")
  }

  /** What the cell lock sends: every token stands for the member of its name. */
  lemma CellFromJson(before: string, d: Doc, after: string, tmpl: string)
    requires IsRequest(before, d, after) && CellSearchable(d) && tmpl != ""
    requires TreeInteger(J.Value(d), "confirm", 0) != 0
    requires TreeInteger(J.Value(d), "earfcn", -1) >= 0 && TreeInteger(J.Value(d), "pci", -1) >= 0
    ensures var v := J.Value(d);
      var bs := [ Binding("{mode}", Dec(TreeInteger(v, "mode", 1))), Binding("{rat}", Dec(TreeInteger(v, "rat", 0))),
                  Binding("{type}", Dec(TreeInteger(v, "type", 1))),
                  Binding("{earfcn}", Dec(TreeInteger(v, "earfcn", -1))),
                  Binding("{pci}", Dec(TreeInteger(v, "pci", -1))) ];
      && AreTokens(bs)
      && CellOutcome(Printed(before, d, after), Some(tmpl)) == Send(Chain(tmpl, bs, 511))
      && (StagesFit(tmpl, bs, 511) ==>
            CellOutcome(Printed(before, d, after), Some(tmpl)) == Send(Take(Subst(tmpl, bs), 511)))
  {
    var body := Printed(before, d, after);
    CellNumbers(before, d, after);
    hide IntegerValue, TreeInteger, Printed, CellSearchable, J.Value, IsRequest, Number, Subst, Chain, StagesFit, IsToken,
      Dec;
    if StagesFit(tmpl, CellBindings(body), STAGE_MAX) {
      CellIsSubst(body, tmpl);
    }
  }

  lemma CellNumbers(before: string, d: Doc, after: string)
    requires IsRequest(before, d, after) && CellSearchable(d)
    ensures var body, v := Printed(before, d, after), J.Value(d);
      && IntegerValue(body, "confirm", 0) == TreeInteger(v, "confirm", 0)
      && IntegerValue(body, "earfcn", -1) == TreeInteger(v, "earfcn", -1)
      && IntegerValue(body, "pci", -1) == TreeInteger(v, "pci", -1)
      && Number(body, "mode", 1) == Dec(TreeInteger(v, "mode", 1))
      && Number(body, "rat", 0) == Dec(TreeInteger(v, "rat", 0))
      && Number(body, "type", 1) == Dec(TreeInteger(v, "type", 1))
      && Number(body, "earfcn", -1) == Dec(TreeInteger(v, "earfcn", -1))
      && Number(body, "pci", -1) == Dec(TreeInteger(v, "pci", -1))
  {
    CellKeys();
    hide IntegerValue, TreeInteger, Printed, Searchable, J.Value, IsRequest, Number, Dec;
    NumberOfTree(before, d, after, "confirm", 0);
    NumberOfTree(before, d, after, "mode", 1);
    NumberOfTree(before, d, after, "rat", 0);
    NumberOfTree(before, d, after, "type", 1);
    NumberOfTree(before, d, after, "earfcn", -1);
    NumberOfTree(before, d, after, "pci", -1);
  }

  lemma Reasons()
    ensures "confirm is required" != "earfcn and pci are required" && "confirm is required" != "earfcn is required"
    ensures "confirm is required" != "cell lock template not configured"
    ensures "earfcn and pci are required" != "cell lock template not configured"
    ensures "confirm is required" != "mode, rat, preferred_rat and bands are required"
  {
    assert |"confirm is required"| == 19 && |"earfcn is required"| == 18 && |"earfcn and pci are required"| == 27;
    assert |"cell lock template not configured"| == 33;
    assert |"mode, rat, preferred_rat and bands are required"| == 47;
  }

  /** When it sends nothing, and why. */
  lemma CellRejected(before: string, d: Doc, after: string, tmpl: Option<string>)
    requires IsRequest(before, d, after) && CellSearchable(d)
    ensures var v, r := J.Value(d), CellOutcome(Printed(before, d, after), tmpl);
      && (TreeInteger(v, "confirm", 0) == 0 <==> r == Rejected("confirm is required"))
      && (r == Rejected("earfcn and pci are required") <==>
            TreeInteger(v, "confirm", 0) != 0 && (TreeInteger(v, "earfcn", -1) < 0 || TreeInteger(v, "pci", -1) < 0))
      && (r.Send? <==>
            && TreeInteger(v, "confirm", 0) != 0 && TreeInteger(v, "earfcn", -1) >= 0 && TreeInteger(v, "pci", -1) >= 0
            && tmpl.Some? && tmpl.value != "")
  {
    CellNumbers(before, d, after);
    Reasons();
    hide IntegerValue, TreeInteger, Printed, CellSearchable, J.Value, IsRequest, Number, Chain, CellBindings;
  }

  // ---------- the frequency lock ----------

  predicate FrequencySearchable(d: Doc) {
    Searchable(d, "confirm") && Searchable(d, "mode") && Searchable(d, "rat") && Searchable(d, "earfcn")
  }

  lemma FrequencyNumbers(before: string, d: Doc, after: string)
    requires IsRequest(before, d, after) && FrequencySearchable(d)
    ensures var body, v := Printed(before, d, after), J.Value(d);
      && IntegerValue(body, "confirm", 0) == TreeInteger(v, "confirm", 0)
      && IntegerValue(body, "earfcn", -1) == TreeInteger(v, "earfcn", -1)
      && Number(body, "mode", 1) == Dec(TreeInteger(v, "mode", 1))
      && Number(body, "rat", 0) == Dec(TreeInteger(v, "rat", 0))
      && Number(body, "earfcn", -1) == Dec(TreeInteger(v, "earfcn", -1))
  {
    CellKeys();
    hide IntegerValue, TreeInteger, Printed, Searchable, J.Value, IsRequest, Number, Dec;
    NumberOfTree(before, d, after, "confirm", 0);
    NumberOfTree(before, d, after, "mode", 1);
    NumberOfTree(before, d, after, "rat", 0);
    NumberOfTree(before, d, after, "earfcn", -1);
  }

  /** The frequency lock, with its own template when the profile has none. */
  lemma FrequencyFromJson(before: string, d: Doc, after: string, tmpl: Option<string>)
    requires IsRequest(before, d, after) && FrequencySearchable(d)
    requires TreeInteger(J.Value(d), "confirm", 0) != 0 && TreeInteger(J.Value(d), "earfcn", -1) >= 0
    ensures var v := J.Value(d);
      var t := if tmpl == None || tmpl == Some("") then "AT+GTCELLLOCK={mode},{rat},1,{earfcn}" else tmpl.value;
      var bs := [ Binding("{mode}", Dec(TreeInteger(v, "mode", 1))), Binding("{rat}", Dec(TreeInteger(v, "rat", 0))),
                  Binding("{earfcn}", Dec(TreeInteger(v, "earfcn", -1))) ];
      && AreTokens(bs)
      && FrequencyOutcome(Printed(before, d, after), tmpl) == Send(Chain(t, bs, 511))
      && (StagesFit(t, bs, 511) ==>
            FrequencyOutcome(Printed(before, d, after), tmpl) == Send(Take(Subst(t, bs), 511)))
  {
    var body := Printed(before, d, after);
    FrequencyNumbers(before, d, after);
    hide IntegerValue, TreeInteger, Printed, FrequencySearchable, J.Value, IsRequest, Number, Subst, Chain, StagesFit,
      IsToken, Dec;
    if StagesFit(FrequencyTemplate(tmpl), FrequencyBindings(body), STAGE_MAX) {
      FrequencyIsSubst(body, tmpl);
    }
  }

  lemma FrequencyRejected(before: string, d: Doc, after: string, tmpl: Option<string>)
    requires IsRequest(before, d, after) && FrequencySearchable(d)
    ensures var v, r := J.Value(d), FrequencyOutcome(Printed(before, d, after), tmpl);
      && (TreeInteger(v, "confirm", 0) == 0 <==> r == Rejected("confirm is required"))
      && (r == Rejected("earfcn is required") <==>
            TreeInteger(v, "confirm", 0) != 0 && TreeInteger(v, "earfcn", -1) < 0)
      && (r.Send? <==> TreeInteger(v, "confirm", 0) != 0 && TreeInteger(v, "earfcn", -1) >= 0)
  {
    FrequencyNumbers(before, d, after);
    Reasons();
    hide IntegerValue, TreeInteger, Printed, FrequencySearchable, J.Value, IsRequest, Number, Chain, FrequencyBindings;
  }

  // ---------- the band lock ----------

  predicate BandSearchable(d: Doc) {
    && Searchable(d, "confirm") && Searchable(d, "mode") && Searchable(d, "rat") && Searchable(d, "preferred_rat")
    && Searchable(d, "bands")
  }

  /** A string of the tree that the decoder gives back. */
  predicate Readable(v: Json, key: string) {
    TreeString(v, key).Some? ==> Decodable(TreeString(v, key).value)
  }

  predicate BandReadable(v: Json) {
    Readable(v, "mode") && Readable(v, "rat") && Readable(v, "preferred_rat") && Readable(v, "bands")
  }

  lemma BandTexts(before: string, d: Doc, after: string)
    requires IsRequest(before, d, after) && BandSearchable(d) && BandReadable(J.Value(d))
    ensures var body, v := Printed(before, d, after), J.Value(d);
      && IntegerValue(body, "confirm", 0) == TreeInteger(v, "confirm", 0)
      && StringValue(body, "mode") == TreeString(v, "mode") && StringValue(body, "rat") == TreeString(v, "rat")
      && StringValue(body, "preferred_rat") == TreeString(v, "preferred_rat")
      && StringValue(body, "bands") == TreeString(v, "bands")
  {
    assert |"preferred_rat"| <= 20 && |"bands"| <= 20;
    CellKeys();
    hide IntegerValue, StringValue, TreeInteger, TreeString, Printed, Searchable, J.Value, IsRequest, Decodable, Number;
    NumberOfTree(before, d, after, "confirm", 0);
    TextOfTree(before, d, after, "mode");
    TextOfTree(before, d, after, "rat");
    TextOfTree(before, d, after, "preferred_rat");
    TextOfTree(before, d, after, "bands");
  }

  lemma TextOfTree(before: string, d: Doc, after: string, key: string)
    requires IsRequest(before, d, after) && Searchable(d, key) && |key| <= 20 && Readable(J.Value(d), key)
    ensures StringValue(Printed(before, d, after), key) == TreeString(J.Value(d), key)
  {
    hide StringValue, TreeString, Printed, Searchable, J.Value, Decodable;
    StringInDoc(before, d, after, key);
  }

  /** The band lock takes four texts of the request as they are. */
  lemma BandFromJson(before: string, d: Doc, after: string, tmpl: string)
    requires IsRequest(before, d, after) && BandSearchable(d) && BandReadable(J.Value(d)) && tmpl != ""
    requires TreeInteger(J.Value(d), "confirm", 0) != 0
    requires TreeString(J.Value(d), "mode").Some? && TreeString(J.Value(d), "rat").Some?
    requires TreeString(J.Value(d), "preferred_rat").Some? && TreeString(J.Value(d), "bands").Some?
    ensures var v := J.Value(d);
      var bs := [ Binding("{mode}", TreeString(v, "mode").value), Binding("{rat}", TreeString(v, "rat").value),
                  Binding("{preferred_rat}", TreeString(v, "preferred_rat").value),
                  Binding("{bands}", TreeString(v, "bands").value) ];
      && AreTokens(bs)
      && BandOutcome(Printed(before, d, after), Some(tmpl)) == Send(Chain(tmpl, bs, 511))
      && (StagesFit(tmpl, bs, 511) && Compatible(bs, 511) ==>
            BandOutcome(Printed(before, d, after), Some(tmpl)) == Send(Take(Subst(tmpl, bs), 511)))
  {
    var v := J.Value(d);
    BandTexts(before, d, after);
    hide *;
    BandSends(Printed(before, d, after), TreeString(v, "mode").value, TreeString(v, "rat").value,
              TreeString(v, "preferred_rat").value, TreeString(v, "bands").value, tmpl);
  }

  lemma BandSends(body: string, mode: string, rat: string, pref: string, bands: string, tmpl: string)
    requires IntegerValue(body, "confirm", 0) != 0 && tmpl != ""
    requires StringValue(body, "mode") == Some(mode) && StringValue(body, "rat") == Some(rat)
    requires StringValue(body, "preferred_rat") == Some(pref) && StringValue(body, "bands") == Some(bands)
    ensures
      var bs :=
        [ Binding("{mode}", mode), Binding("{rat}", rat), Binding("{preferred_rat}", pref), Binding("{bands}", bands) ];
      && AreTokens(bs)
      && BandOutcome(body, Some(tmpl)) == Send(Chain(tmpl, bs, 511))
      && (StagesFit(tmpl, bs, 511) && Compatible(bs, 511) ==>
            BandOutcome(body, Some(tmpl)) == Send(Take(Subst(tmpl, bs), 511)))
  {
    hide IntegerValue, StringValue, Subst, Chain, StagesFit, IsToken, Compatible;
    var bs := BandBindings(mode, rat, pref, bands);
    if StagesFit(tmpl, bs, STAGE_MAX) && Compatible(bs, STAGE_MAX) {
      BandIsSubst(mode, rat, pref, bands, tmpl);
    }
  }

  lemma BandRejected(before: string, d: Doc, after: string, tmpl: Option<string>)
    requires IsRequest(before, d, after) && BandSearchable(d) && BandReadable(J.Value(d))
    ensures var v, r := J.Value(d), BandOutcome(Printed(before, d, after), tmpl);
      && (TreeInteger(v, "confirm", 0) == 0 <==> r == Rejected("confirm is required"))
      && (r.Send? <==>
            && TreeInteger(v, "confirm", 0) != 0 && tmpl.Some? && tmpl.value != ""
            && TreeString(v, "mode").Some? && TreeString(v, "rat").Some?
            && TreeString(v, "preferred_rat").Some? && TreeString(v, "bands").Some?)
  {
    BandTexts(before, d, after);
    Reasons();
    hide IntegerValue, StringValue, TreeInteger, TreeString, Printed, BandSearchable, BandReadable, J.Value, IsRequest,
      Chain, BandBindings;
  }
}
