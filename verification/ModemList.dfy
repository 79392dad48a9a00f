/** The list of modems as `dbus-send` prints it, and which of them is chosen. */
module ModemList {
  import opened CStrings
  import opened Ofono

  /** An object path and all that is printed up to the next one. */
  datatype Modem = Modem(path: string, details: string)

  function ModemText(m: Modem): string {
    "object path \"" + (m.path + ("\"" + m.details))
  }

  function ListText(ms: seq<Modem>): string {
    if ms == [] then "" else ModemText(ms[0]) + ListText(ms[1..])
  }

  /** The only object path among the details of a modem is its own. */
  predicate IsModem(m: Modem) {
    m.path != "" && '"' !in m.path && FindFrom(ModemText(m), MARK, 1).None?
  }

  /** The part of a modem's text that is looked at. */
  function Shown(m: Modem): string {
    Take(ModemText(m), 2047)
  }

  ghost predicate Offers(m: Modem, name: string) {
    exists j: nat :: Occurs(Shown(m), name, j)
  }

  function Points(offered: bool, n: nat): nat {
    if offered then n else 0
  }

  // ---------- the list is read ----------

  /** The mark neither overlaps itself nor touches the next one with its last character. */
  lemma MarkEnds(text: string, i: nat, j: nat)
    requires Occurs(text, MARK, i) && Occurs(text, MARK, j) && i < j
    ensures i + 12 <= j
  {
    MarksApart(text, i, j);
    assert text[i..][11] == text[i + 11] && MARK[11] == ' ';
    assert text[j..][0] == text[j] && MARK[0] == 'o';
  }

  /** The next mark is where the next modem starts. */
  lemma NextMark(text: string, i: nat, w: string, rest: string)
    requires i <= |text| && text[i..] == w + rest && Find(w, MARK).None? && (rest == "" || MARK <= rest)
    ensures FindFrom(text, MARK, i) == if rest == "" then None else Some(i + |w|)
  {
    hide Find, FindFrom;
    forall j: nat | i <= j < i + |w|
      ensures !Occurs(text, MARK, j)
    {
      assert text[j..] == w[j - i..] + rest;
      assert !Occurs(w, MARK, j - i);
      if rest != "" {
        assert text[i + |w|..] == rest;
        if Occurs(text, MARK, j) {
          MarkEnds(text, j, i + |w|);
        }
      }
    }
    if rest == "" {
      assert forall j: nat | j >= |text| :: !Occurs(text, MARK, j);
    } else {
      assert text[i + |w|..] == rest;
      assert Occurs(text, MARK, i + |w|);
    }
  }

  lemma ModemParts(m: Modem)
    requires IsModem(m)
    ensures |ModemText(m)| > 12 && MARK <= ModemText(m) && Find(ModemText(m)[11..], MARK).None?
  {
    var t := ModemText(m);
    assert |MARK| == 12 && t[..12] == MARK;
    forall j: nat
      ensures !Occurs(t[11..], MARK, j)
    {
      OccursInSuffix(t, MARK, 11, j);
    }
    hide IsModem;
  }

  lemma ListStarts(ms: seq<Modem>)
    requires forall i: nat | i < |ms| :: IsModem(ms[i])
    ensures ListText(ms) == "" <==> ms == []
    ensures ms != [] ==> MARK <= ListText(ms)
  {
    hide IsModem, ModemText;
    if ms != [] {
      ModemParts(ms[0]);
    }
  }

  lemma BlockOf(t: string, rest: string)
    requires |t| > 12 && Find(t[11..], MARK).None? && (rest == "" || MARK <= rest)
    ensures BlockAt(t + rest) == Take(t, 2047)
  {
    hide Find, FindFrom, Take;
    var text := t + rest;
    assert text[11..] == t[11..] + rest;
    NextMark(text, 11, t[11..], rest);
    assert text[..|t|] == t;
    assert rest == "" ==> text == t;
  }

  /** The block of the modem that the text starts with. */
  lemma BlockRead(m: Modem, more: seq<Modem>)
    requires IsModem(m) && forall i: nat | i < |more| :: IsModem(more[i])
    ensures BlockAt(ModemText(m) + ListText(more)) == Shown(m)
  {
    hide ModemText, ListText, IsModem, FindFrom, Find, Take, MARK, BlockAt;
    ModemParts(m);
    ListStarts(more);
    BlockOf(ModemText(m), ListText(more));
  }

  lemma PathRead(m: Modem, rest: string)
    requires IsModem(m)
    ensures PathAt(ModemText(m) + rest) == Take(m.path, 127) != ""
  {
    var text := ModemText(m) + rest;
    SpanUnique(text, c => c != '"', 12);
    var t := text[13..];
    assert t == m.path + ("\"" + (m.details + rest));
    assert forall i: nat | i < |m.path| :: t[i] == m.path[i] && m.path[i] in m.path;
    SpanUnique(t, c => c != '"', |m.path|);
    assert t[..|m.path|] == m.path;
  }

  function CandidatesOf(ms: seq<Modem>): (cs: seq<Candidate>)
    ensures |cs| == |ms|
  {
    seq(|ms|, i requires 0 <= i < |ms| => Candidate(Take(ms[i].path, 127), Score(Shown(ms[i]))))
  }

  lemma FirstCandidate(text: string, from: nat, i: nat, ms: seq<Modem>)
    requires FindFrom(text, MARK, from) == Some(i) && i + 12 <= |text| && ms != []
    requires PathAt(text[i..]) == Take(ms[0].path, 127) != "" && BlockAt(text[i..]) == Shown(ms[0])
    requires Candidates(text, Starts(text, i + 11)) == CandidatesOf(ms[1..])
    ensures Candidates(text, Starts(text, from)) == CandidatesOf(ms)
  {
    hide FindFrom, PathAt, BlockAt, Score, MARK, Starts, Candidates, Take, Shown;
    ScanStep(text, from, i, []);
    var c := Candidate(Take(ms[0].path, 127), Score(Shown(ms[0])));
    assert [] + Candidates(text, Starts(text, from)) == Candidates(text, Starts(text, from));
    assert [] + [c] + CandidatesOf(ms[1..]) == CandidatesOf(ms);
  }

  lemma {:induction false} ModemsRead(text: string, from: nat, w: string, ms: seq<Modem>)
    requires from <= |text| && text[from..] == w + ListText(ms) && Find(w, MARK).None?
    requires forall i: nat | i < |ms| :: IsModem(ms[i])
    ensures Candidates(text, Starts(text, from)) == CandidatesOf(ms)
    decreases |ms|
  {
    hide Find, FindFrom, IsModem, ModemText, PathAt, BlockAt, Score, MARK, Starts, Candidates;
    ListStarts(ms);
    NextMark(text, from, w, ListText(ms));
    if ms != [] {
      var m, i, rest := ms[0], from + |w|, ListText(ms[1..]);
      var t := ModemText(m);
      assert text[i..] == t + rest;
      ModemParts(m);
      PathRead(m, rest);
      BlockRead(m, ms[1..]);
      assert text[i + 11..] == text[i..][11..] == t[11..] + rest;
      ModemsRead(text, i + 11, t[11..], ms[1..]);
      FirstCandidate(text, from, i, ms);
    } else {
      EndScan(text, from, []);
    }
  }

  /** The scan sees every modem of a printed list, in order. */
  lemma ListRead(before: string, ms: seq<Modem>)
    requires Find(before, MARK).None? && forall i: nat | i < |ms| :: IsModem(ms[i])
    ensures var text := before + ListText(ms); Candidates(text, Starts(text, 0)) == CandidatesOf(ms)
  {
    hide *;
    var text := before + ListText(ms);
    assert text[0..] == text;
    ModemsRead(text, 0, before, ms);
  }

  // ---------- which modem is chosen ----------

  /** What the interfaces of a modem count. */
  lemma ScoreOf(m: Modem)
    ensures Score(Shown(m)) ==
      Points(Offers(m, "org.ofono.NetworkRegistration"), 4) + Points(Offers(m, "org.ofono.MessageManager"), 4) +
      Points(Offers(m, "org.ofono.SimManager"), 2) + Points(Offers(m, "org.ofono.Modem"), 2) +
      Points(Offers(m, "org.ofono.RadioSettings"), 1)
  {
    hide FindFrom, Occurs, Shown;
  }

  /** Registers, sends messages, and has a SIM or can be controlled. */
  ghost predicate Usable(m: Modem) {
    && Offers(m, "org.ofono.NetworkRegistration") && Offers(m, "org.ofono.MessageManager")
    && (Offers(m, "org.ofono.SimManager") || Offers(m, "org.ofono.Modem"))
  }

  /** A usable modem is chosen if no other one both registers and sends messages. */
  lemma UsableIsChosen(before: string, ms: seq<Modem>, k: nat, best: Option<string>)
    requires Find(before, MARK).None? && (forall i: nat | i < |ms| :: IsModem(ms[i])) && k < |ms| && Usable(ms[k])
    requires forall i: nat | i < |ms| && i != k ::
      !(Offers(ms[i], "org.ofono.NetworkRegistration") && Offers(ms[i], "org.ofono.MessageManager"))
    requires var text := before + ListText(ms); IsBest(Candidates(text, Starts(text, 0)), best)
    ensures best == Some(Take(ms[k].path, 127))
  {
    hide Find, FindFrom, IsModem, Score, Offers, MARK, Starts, Candidates, ListText;
    ListRead(before, ms);
    var cs := CandidatesOf(ms);
    ScoreOf(ms[k]);
    forall i: nat | i < |ms| && i != k
      ensures cs[i].score < 10 <= cs[k].score
    {
      ScoreOf(ms[i]);
    }
  }

  /** A modem that only registers and sends messages loses to one that cannot send messages but has all the rest. */
  lemma BareIsNotChosen(before: string, bare: Modem, other: Modem, best: Option<string>)
    requires Find(before, MARK).None? && IsModem(bare) && IsModem(other)
    requires !Offers(bare, "org.ofono.SimManager") && !Offers(bare, "org.ofono.Modem")
    requires !Offers(bare, "org.ofono.RadioSettings") && Offers(other, "org.ofono.NetworkRegistration")
    requires Offers(other, "org.ofono.SimManager") && Offers(other, "org.ofono.Modem")
    requires Offers(other, "org.ofono.RadioSettings")
    requires var text := before + ListText([bare, other]); IsBest(Candidates(text, Starts(text, 0)), best)
    ensures best == Some(Take(other.path, 127))
  {
    hide Find, FindFrom, IsModem, Score, Offers, MARK, Starts, Candidates, ListText;
    ListRead(before, [bare, other]);
    ScoreOf(bare);
    ScoreOf(other);
    var cs := CandidatesOf([bare, other]);
    assert cs[0].score < cs[1].score;
  }
}
