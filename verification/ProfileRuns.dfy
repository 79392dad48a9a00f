/** Two ways in which a profile gets lost, and exactly when: an edit of the profile that each start imports, and an
    active profile whose id is too long for memory. */
module ProfileRuns {
  import opened CStrings
  import opened Json
  import J = Json
  import opened JsonUtil
  import opened Config
  import opened ProfileLookup
  import opened AppModel
  import opened AppRuns

  // ---------- a restart imports the profile file ----------

  /** A restart imports the profile file again, under its own id or the configured one. The table stays as it is
      exactly when there is no file or the row of that id holds the file already; all other profiles are kept. */
  lemma RestartReimports(s: State, files: Files, discovered: Option<string>)
    ensures var t := Booted(s, files, discovered);
      var fallback := ActiveId(BaseConfig(files));
      match ProfileFile(PathOf(BaseConfig(files)), files.texts)
      case None => t.profiles == s.profiles
      case Some(json) =>
        var id := FileId(json, fallback);
        && t.profiles.Keys == s.profiles.Keys + {id} && t.profiles[id] == FileRow(json, fallback)
        && (forall other | other in s.profiles && other != id :: t.profiles[other] == s.profiles[other])
        && (t.profiles == s.profiles <==> id in s.profiles && s.profiles[id] == FileRow(json, fallback))
  {
    hide StringValue, Loaded, Overlay, FileId, FileRow, ProfileFile;
  }

  lemma BodySaved(s: State, body: string, id: string, name: string)
    requires |body| >= 2 && StringValue(body, "id") == Some(id) && StringValue(body, "name") == Some(name)
    requires id != "" && name != ""
    ensures Next(s, SaveProfile(body)) == s.(profiles := s.profiles[id := ProfileRow(name, body)])
  {
    hide StringValue;
  }

  /** In every reachable state: a request that saves the profile of the file puts its own text into the row of that
      id, and the next restart puts the text of the file back. */
  lemma EditLost(files: Files, s: State, json: string, body: string, name: string, discovered: Option<string>)
    requires Reachable(files, s) && ProfileFile(PathOf(BaseConfig(files)), files.texts) == Some(json)
    requires |body| >= 2 && StringValue(body, "id") == Some(FileId(json, ActiveId(BaseConfig(files))))
    requires FileId(json, ActiveId(BaseConfig(files))) != "" && StringValue(body, "name") == Some(name) && name != ""
    ensures var id, row := FileId(json, ActiveId(BaseConfig(files))), FileRow(json, ActiveId(BaseConfig(files)));
      var edited := Next(s, SaveProfile(body));
      var t := Booted(edited, files, discovered);
      && Reachable(files, edited)
      && id in edited.profiles && edited.profiles[id] == ProfileRow(name, body)
      && id in t.profiles && t.profiles[id] == row
      && (t.profiles == edited.profiles <==> ProfileRow(name, body) == row)
  {
    var id := FileId(json, ActiveId(BaseConfig(files)));
    var r := SaveProfile(body);
    BodySaved(s, body, id, name);
    assert [r][0] == r;
    ReachableNext(files, s, r);
    RestartReimports(Next(s, r), files, discovered);
    hide *;
  }

  // ---------- the active profile can get lost ----------

  /** The text of a small profile. */
  function ProfileText(id: string, name: string): string {
    Print(ObjDoc([("id", DStr(id)), ("name", DStr(name))]))
  }

  lemma ProfileTextFields(id: string, name: string)
    requires IsKey(id) && IsKey(name) && id != "name"
    ensures StringValue(ProfileText(id, name), "id") == Some(id)
    ensures StringValue(ProfileText(id, name), "name") == Some(name)
    ensures |ProfileText(id, name)| >= 2
  {
    var ms := [("id", DStr(id)), ("name", DStr(name))];
    var d := ObjDoc(ms);
    TwoFields(ms);
    TwoFieldsClean(id, name);
    assert Printed("", d, "") == Print(d);
    hide J.Value, WellFormed, Searchable, TreeString, IsKey, StringValue, ObjDoc, PrintTo;
    StringInDoc("", d, "", "id");
    StringInDoc("", d, "", "name");
  }

  lemma TwoFields(ms: seq<Member>)
    requires |ms| == 2 && ms[0].0 == "id" && ms[1].0 == "name" && ms[0].1.DStr? && ms[1].1.DStr? && ms[0].1.s != "name"
    ensures var d := ObjDoc(ms);
      && WellFormed(d) && |Print(d)| >= 2
      && TreeString(J.Value(d), "id") == Some(ms[0].1.s) && TreeString(J.Value(d), "name") == Some(ms[1].1.s)
  {
    hide PrintTo;
    CompactWellFormed(ms);
    CompactValue(ms);
    ObjPrinted(ms);
    var es := Entries(ms);
    assert es == [Entry("id", Str(ms[0].1.s)), Entry("name", Str(ms[1].1.s))];
    assert J.Value(ObjDoc(ms)) == Obj(es);
    hide J.Value, ObjDoc, WellFormed;
    TreeFields(es, ms[0].1.s, ms[1].1.s);
  }

  lemma TreeFields(es: seq<Entry>, id: string, name: string)
    requires es == [Entry("id", Str(id)), Entry("name", Str(name))] && id != "name"
    ensures TreeString(Obj(es), "id") == Some(id) && TreeString(Obj(es), "name") == Some(name)
  {
    assert es[1..] == [es[1]];
    assert "id"[0] != "name"[0];
    assert FirstToken(Str(id), "name") == None;
    assert FirstInMembers(es, "id") == Some(AsKey(Str(id)));
    assert FirstInMembers(es[1..], "name") == Some(AsKey(Str(name)));
    assert FirstInMembers(es, "name") == FirstInMembers(es[1..], "name");
  }

  lemma TwoFieldsClean(id: string, name: string)
    requires IsKey(id) && IsKey(name)
    ensures var d := ObjDoc([("id", DStr(id)), ("name", DStr(name))]);
      Searchable(d, "id") && Searchable(d, "name") && Decodable(id) && Decodable(name)
  {
    KeysEndPlain(id);
    KeysEndPlain(name);
    KeysEndPlain("id");
    KeysEndPlain("name");
    var ms := [("id", DStr(id)), ("name", DStr(name))];
    assert ms[1..] == [("name", DStr(name))] && ms[1..][1..] == [];
    var second := MCons("", "name", "", "", DStr(name), "", MNil);
    assert Compact(ms[1..]) == second;
    assert ObjDoc(ms) == DObj("", MCons("", "id", "", "", DStr(id), "", second));
    hide EndsLikeKey;
    MembersClean(id, name, "id");
    MembersClean(id, name, "name");
  }

  lemma MembersClean(id: string, name: string, key: string)
    requires !EndsLikeKey(id, key) && !EndsLikeKey(name, key) && !EndsLikeKey("id", key) && !EndsLikeKey("name", key)
    ensures Clean(DObj("", MCons("", "id", "", "", DStr(id), "", MCons("", "name", "", "", DStr(name), "", MNil))), key)
  {
    hide EndsLikeKey;
    var second := MCons("", "name", "", "", DStr(name), "", MNil);
    assert Clean(DStr(id), key) && Clean(DStr(name), key);
    assert CleanMembers(second, key);
    assert CleanMembers(MCons("", "id", "", "", DStr(id), "", second), key);
  }

  lemma KeysEndPlain(s: string)
    requires IsKey(s)
    ensures Decodable(s) && forall key: string :: !EndsLikeKey(s, key)
  {
    forall key: string ensures !EndsLikeKey(s, key) {
      if |key| < |s| {
        assert s[|s| - |key| - 1..][0] == s[|s| - |key| - 1] != '"';
      }
    }
  }

  lemma ProfileSaved(s: State, id: string, name: string)
    requires IsKey(id) && IsKey(name) && id != "name" && id != "" && name != ""
    ensures Next(s, SaveProfile(ProfileText(id, name))) ==
            s.(profiles := s.profiles[id := ProfileRow(name, ProfileText(id, name))])
  {
    ProfileTextFields(id, name);
    hide *;
    BodySaved(s, ProfileText(id, name), id, name);
  }

  function LongId(c: char): string {
    seq(128, _ => c)
  }

  /** Whatever the files, some run loses the active profile: it activates a stored profile whose id is too long. */
  lemma ActiveLost(files: Files, first: Option<string>)
    ensures exists c: char ::
              var rs := Losing(c);
              && ActiveStored(Run(Start(files, first), rs[..3])) && LosesActive(Run(Start(files, first), rs[..3]), rs[3])
              && !ActiveStored(Run(Start(files, first), rs))
  {
    var s := Start(files, first);
    var c := if Take(LongId('a'), 127) in s.profiles then 'b' else 'a';
    OneProfile(files, first);
    assert Take(LongId('a'), 127)[0] == 'a' && Take(LongId('b'), 127)[0] == 'b';
    RunLoses(s, c);
  }

  /** A first start stores at most the profile of the file. */
  lemma OneProfile(files: Files, first: Option<string>)
    ensures forall x, y | x in Start(files, first).profiles && y in Start(files, first).profiles :: x == y
  {
    hide Loaded, Overlay, StringValue, ProfileFile;
  }

  function Losing(c: char): (rs: seq<Request>)
    ensures |rs| == 4
  {
    [ SaveProfile(ProfileText("p", "p")), Activate(ProfileText("p", "p")), SaveProfile(ProfileText(LongId(c), "p")),
      Activate(ProfileText(LongId(c), "p")) ]
  }

  lemma RunLoses(s: State, c: char)
    requires (c == 'a' || c == 'b') && Take(LongId(c), 127) !in s.profiles
    ensures var rs := Losing(c);
      && ActiveStored(Run(s, rs[..3])) && LosesActive(Run(s, rs[..3]), rs[3]) && !ActiveStored(Run(s, rs))
  {
    var id := LongId(c);
    var rs := Losing(c);
    LongIdFacts(c);
    hide LongId, Take, Next, Run, IsKey, ProfileText, LosesActive, ActiveStored;
    var s2 := SavedAndActive(s, "p");
    ProfileSaved(s2, id, "p");
    var s3 := Next(s2, rs[2]);
    StillStored(s2, s3);
    ProfileTextFields(id, "p");
    hide StringValue;
    Activated(s3, ProfileText(id, "p"), id);
    FourRequests(s, rs);
  }

  /** The state after saving and activating a profile with a short id. */
  lemma SavedAndActive(s: State, id: string) returns (t: State)
    requires IsKey(id) && id != "" && id != "name" && Take(id, 127) == id && IsKey("p")
    ensures t == Next(Next(s, SaveProfile(ProfileText(id, "p"))), Activate(ProfileText(id, "p")))
    ensures ActiveStored(t) && t.profiles == s.profiles[id := ProfileRow("p", ProfileText(id, "p"))]
  {
    hide Take, Next, IsKey, ProfileText, LosesActive, ActiveStored;
    ProfileTextFields(id, "p");
    ProfileSaved(s, id, "p");
    hide StringValue;
    var s1 := Next(s, SaveProfile(ProfileText(id, "p")));
    Activated(s1, ProfileText(id, "p"), id);
    t := Next(s1, Activate(ProfileText(id, "p")));
  }

  /** Activating a stored profile loses it exactly when its shortened id is not stored. */
  lemma Activated(s: State, body: string, id: string)
    requires StringValue(body, "id") == Some(id) && id != "" && id in s.profiles
    ensures var t := Next(s, Activate(body));
      t.profiles == s.profiles && (ActiveStored(t) <==> Take(id, 127) in s.profiles)
      && (LosesActive(s, Activate(body)) <==> Take(id, 127) !in s.profiles)
  {
    hide StringValue, Take;
    ActivatedId(s, body);
  }

  lemma StillStored(s: State, t: State)
    requires ActiveStored(s) && t.cfg == s.cfg && s.profiles.Keys <= t.profiles.Keys
    ensures ActiveStored(t)
  {}

  lemma LongIdFacts(c: char)
    requires c == 'a' || c == 'b'
    ensures var id := LongId(c);
      && IsKey(id) && id != "" && id != "name" && Take(id, 127) != id && Take(id, 127) != "p" && id != "p"
      && IsKey("p") && Take("p", 127) == "p" && "p" != "name" && "p" != ""
  {
    var id := LongId(c);
    assert |id| == 128 && |Take(id, 127)| == 127;
  }

  lemma FourRequests(s: State, rs: seq<Request>)
    requires |rs| == 4
    ensures Run(s, rs[..3]) == Next(Next(Next(s, rs[0]), rs[1]), rs[2])
    ensures Run(s, rs) == Next(Run(s, rs[..3]), rs[3])
  {
    hide Next;
    assert rs == rs[..3] + [rs[3]] && rs[..3] == rs[..2] + [rs[2]] && rs[..2] == rs[..1] + [rs[1]] &&
      rs[..1] == [] + [rs[0]];
    RunSnoc(s, rs[..3], rs[3]);
    RunSnoc(s, rs[..2], rs[2]);
    RunSnoc(s, rs[..1], rs[1]);
    RunSnoc(s, [], rs[0]);
  }
}
