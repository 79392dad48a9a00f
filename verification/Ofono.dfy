/** src/ofono.c: which modem path is used when the configured one does not answer. */
module Ofono {
  import opened CStrings

  const MARK := "object path "

  // ---------- blocks of the modem list ----------

  /** Where the mark occurs at or after an index, in the order the scan finds it. */
  function Starts(text: string, from: nat): seq<nat>
    decreases |text| - from
  {
    match FindFrom(text, MARK, from)
    case None => []
    case Some(i) => [i] + Starts(text, i + 11)
  }

  /** `extract_path`: the quoted text that follows, cut to 127 bytes; nothing if there is none. */
  function PathAt(rest: string): (path: string)
    ensures |path| <= 127
  {
    var n := Span(rest, c => c != '"');
    if n == |rest| then "" else
    var t := rest[n + 1..];
    Take(t[..Span(t, c => c != '"')], 127)
  }

  /** The text up to the next mark, cut to 2047 bytes. */
  function BlockAt(rest: string): string {
    Take(match FindFrom(rest, MARK, 11) case None => rest case Some(j) => Prefix(rest, j), 2047)
  }

  function Prefix(s: string, n: nat): string {
    if n <= |s| then s[..n] else s
  }

  /** `path_supported_score`. */
  function Score(block: string): (n: nat)
    ensures n <= 13
  {
    (if Find(block, "org.ofono.NetworkRegistration").Some? then 4 else 0) +
    (if Find(block, "org.ofono.MessageManager").Some? then 4 else 0) +
    (if Find(block, "org.ofono.SimManager").Some? then 2 else 0) +
    (if Find(block, "org.ofono.Modem").Some? then 2 else 0) +
    (if Find(block, "org.ofono.RadioSettings").Some? then 1 else 0)
  }

  datatype Candidate = Candidate(path: string, score: nat)

  /** The blocks that have a path, with their scores. */
  function Candidates(text: string, starts: seq<nat>): (cs: seq<Candidate>)
    ensures forall c | c in cs :: c.path != "" && |c.path| <= 127
  {
    if starts == [] then [] else
    var rest := text[if starts[0] <= |text| then starts[0] else |text|..];
    var path := PathAt(rest);
    (if path == "" then [] else [Candidate(path, Score(BlockAt(rest)))]) + Candidates(text, starts[1..])
  }

  // ---------- every mark starts a block ----------

  lemma MarksApart(text: string, i: nat, j: nat)
    requires Occurs(text, MARK, i) && Occurs(text, MARK, j) && i < j
    ensures i + 11 <= j
  {
    assert forall k: nat | k < 12 :: text[i..][k] == text[i + k] == MARK[k] && text[j..][k] == text[j + k] == MARK[k];
    if j < i + 11 {
      assert text[j] == MARK[0] && text[j] == MARK[j - i];
      assert text[j + 1] == MARK[1] && text[j + 1] == MARK[j - i + 1];
      MarkPairs(j - i);
    }
  }

  lemma MarkPairs(k: nat)
    requires 0 < k < 11
    ensures !(MARK[k] == 'o' && MARK[k + 1] == 'b')
  {}

  /** The scan steps over eleven bytes after each mark and still finds every one of them. */
  lemma {:induction false} StartsAll(text: string, from: nat, i: nat)
    ensures i in Starts(text, from) <==> from <= i && Occurs(text, MARK, i)
    decreases |text| - from
  {
    hide Occurs;
    match FindFrom(text, MARK, from)
    case None =>
    case Some(j) =>
      StartsAll(text, j + 11, i);
      if Occurs(text, MARK, i) && i > j {
        MarksApart(text, j, i);
      }
  }

  // ---------- ofono_resolve_modem_path ----------

  /** The first of the candidates with the highest score. */
  predicate IsBest(cs: seq<Candidate>, best: Option<string>) {
    (best.None? ==> cs == []) &&
    (best.Some? ==>
       exists k: nat :: k < |cs| && cs[k].path == best.value
         && (forall j: nat | j < |cs| :: cs[j].score <= cs[k].score)
         && (forall j: nat | j < k :: cs[j].score < cs[k].score))
  }

  /** The scan keeps the position of the best candidate so far. */
  predicate Leads(cs: seq<Candidate>, k: nat, best: string, bestScore: int) {
    if cs == [] then best == "" && bestScore == -1
    else
      && k < |cs| && bestScore >= 0 && cs[k] == Candidate(best, bestScore)
      && (forall j: nat | j < |cs| :: cs[j].score <= bestScore)
      && (forall j: nat | j < k :: cs[j].score < bestScore)
  }

  method ScanModems(text: string) returns (best: Option<string>)
    ensures IsBest(Candidates(text, Starts(text, 0)), best)
    ensures best.Some? ==> best.value != "" && |best.value| <= 127
  {
    hide PathAt, BlockAt, Score, FindFrom, Leads;
    var p: nat, bestScore: int, name := 0, -1, "";
    ghost var done, k: nat := [], 0;
    ghost var all := Candidates(text, Starts(text, 0));
    StartScan(all);
    var m := FindFrom(text, MARK, 0);
    while m.Some?
      invariant m == FindFrom(text, MARK, p)
      invariant done + Candidates(text, Starts(text, p)) == all
      invariant Leads(done, k, name, bestScore)
      decreases m.Some?, |text| - p
    {
      ScanStep(text, p, m.value, done);
      var rest := text[m.value..];
      var path := PathAt(rest);
      if path != "" {
        var score := Score(BlockAt(rest));
        k := NextLead(done, k, name, bestScore, Candidate(path, score));
        done := done + [Candidate(path, score)];
        if score > bestScore {
          bestScore, name := score, path;
        }
      }
      p := m.value + 11;
      m := FindFrom(text, MARK, p);
    }
    EndScan(text, p, done);
    best := if name == "" then None else Some(name);
    LeadIsBest(done, k, name, bestScore);
  }

  lemma StartScan(all: seq<Candidate>)
    ensures [] + all == all && Leads([], 0, "", -1)
  {}

  lemma ScanStep(text: string, p: nat, i: nat, done: seq<Candidate>)
    requires FindFrom(text, MARK, p) == Some(i)
    ensures p <= i && i + 12 <= |text|
    ensures var rest := text[i..];
      done + Candidates(text, Starts(text, p)) ==
      (if PathAt(rest) == "" then done else done + [Candidate(PathAt(rest), Score(BlockAt(rest)))]) +
      Candidates(text, Starts(text, i + 11))
  {
    hide PathAt, BlockAt, Score;
    assert Occurs(text, MARK, i) && |MARK| == 12;
    var starts := Starts(text, p);
    assert starts[0] == i && starts[1..] == Starts(text, i + 11);
    var rest := text[i..];
    hide FindFrom, Occurs, Starts, MARK;
    var later := Candidates(text, Starts(text, i + 11));
    if PathAt(rest) == "" {
      assert [] + later == later;
    } else {
      Reassociate(done, Candidate(PathAt(rest), Score(BlockAt(rest))), later);
    }
  }

  lemma Reassociate(done: seq<Candidate>, c: Candidate, later: seq<Candidate>)
    ensures done + ([c] + later) == (done + [c]) + later
  {}

  lemma EndScan(text: string, p: nat, done: seq<Candidate>)
    requires FindFrom(text, MARK, p).None?
    ensures done + Candidates(text, Starts(text, p)) == done
  {}

  lemma NextLead(cs: seq<Candidate>, k: nat, best: string, bestScore: int, c: Candidate) returns (next: nat)
    requires Leads(cs, k, best, bestScore) && c.path != ""
    ensures next == if c.score > bestScore then |cs| else k
    ensures c.score > bestScore ==> Leads(cs + [c], next, c.path, c.score)
    ensures c.score <= bestScore ==> Leads(cs + [c], next, best, bestScore)
  {
    next := if c.score > bestScore then |cs| else k;
  }

  lemma LeadIsBest(cs: seq<Candidate>, k: nat, best: string, bestScore: int)
    requires Leads(cs, k, best, bestScore) && forall c | c in cs :: c.path != "" && |c.path| <= 127
    ensures IsBest(cs, if best == "" then None else Some(best))
    ensures |best| <= 127
  {
    if cs != [] {
      assert cs[k] in cs;
    }
  }

  /** The configured path is kept while it answers; otherwise the list of modems decides. */
  method ResolveModemPath(path: string, answers: bool, modems: Option<string>) returns (r: Option<string>)
    ensures answers ==> r == Some(Take(path, 127))
    ensures !answers && modems.None? ==> r.None?
    ensures !answers && modems.Some? ==> IsBest(Candidates(modems.value, Starts(modems.value, 0)), r)
    ensures r.Some? ==> |r.value| <= 127
  {
    if answers {
      return Some(Take(path, 127));
    }
    if modems.None? {
      return None;
    }
    r := ScanModems(modems.value);
  }

  /** The choice is determined by the list. */
  lemma BestIsUnique(cs: seq<Candidate>, a: Option<string>, b: Option<string>)
    requires IsBest(cs, a) && IsBest(cs, b)
    ensures a == b
  {
    if a.Some? && b.Some? {
      var i: nat :| i < |cs| && cs[i].path == a.value && (forall j: nat | j < |cs| :: cs[j].score <= cs[i].score)
        && (forall j: nat | j < i :: cs[j].score < cs[i].score);
      var k: nat :| k < |cs| && cs[k].path == b.value && (forall j: nat | j < |cs| :: cs[j].score <= cs[k].score)
        && (forall j: nat | j < k :: cs[j].score < cs[k].score);
      assert i == k;
    }
  }
}
