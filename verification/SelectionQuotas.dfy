/**
 How many places each retrieval channel is sure of, and in what order the selection
 comes (script/github-check-new-issue-for-duplicates.py, select_search_candidates).
 */
module SelectionQuotas {
  import opened Selection
  import Seqs

  const CHANNELS: set<string> := {"semantic_query", "error_pattern", "title_keywords", "popular_area", "area_label"}

  function Larger(x: int, y: int): int {
    if x < y then y else x
  }

  // The places kept for a channel.
  function QuotaOf(search: string, limit: int): int {
    match search
    case "semantic_query" => Larger(2, limit / 3)
    case "error_pattern" => Larger(1, limit / 10)
    case "title_keywords" => Larger(1, limit / 6)
    case "popular_area" => Larger(1, limit / 5)
    case "area_label" => Larger(1, limit / 6)
    case _ => 0
  }

  // How many candidates answer a channel.
  function Answers(candidates: seq<Candidate>, search: string): nat {
    if candidates == [] then 0
    else Answers(candidates[..|candidates| - 1], search) +
         (if search in candidates[|candidates| - 1].matchedSearches then 1 else 0)
  }

  // Of the candidates that answer `search` the first `n` are kept.
  ghost predicate FirstsKept(kept: seq<Candidate>, candidates: seq<Candidate>, search: string, n: int) {
    forall p :: 0 <= p < |candidates| && search in candidates[p].matchedSearches && Answers(candidates[..p], search) < n ==>
      candidates[p].key in Keys(kept)
  }

  lemma {:induction false} MatchingConcat(a: seq<Candidate>, b: seq<Candidate>, search: string)
    ensures Matching(a + b, search) == Matching(a, search) + Matching(b, search)
  {
    if a == [] {
      Seqs.NoMore(b);
      Seqs.NoMore(Matching(b, search));
    } else {
      MatchingConcat(a[1..], b, search);
      Seqs.TailOfConcat(a, b);
      Seqs.Regroup(if search in a[0].matchedSearches then [a[0]] else [], Matching(a[1..], search), Matching(b, search));
    }
  }

  lemma MatchingOne(c: Candidate, search: string)
    ensures Matching([c], search) == if search in c.matchedSearches then [c] else []
  {
    assert [c][1..] == [];
  }

  lemma {:induction false} AnswersMatch(candidates: seq<Candidate>, search: string)
    ensures |Matching(candidates, search)| == Answers(candidates, search)
  {
    if candidates != [] {
      var front, last := candidates[..|candidates| - 1], candidates[|candidates| - 1];
      AnswersMatch(front, search);
      Seqs.FrontLast(candidates);
      MatchingConcat(front, [last], search);
      MatchingOne(last, search);
    }
  }

  // A candidate of the channel is found where its predecessors are counted to.
  lemma MatchingAt(candidates: seq<Candidate>, search: string, p: nat)
    requires p < |candidates| && search in candidates[p].matchedSearches
    ensures Answers(candidates[..p], search) < |Matching(candidates, search)|
    ensures Matching(candidates, search)[Answers(candidates[..p], search)] == candidates[p]
  {
    var before, c, after := candidates[..p], candidates[p], candidates[p + 1..];
    Seqs.SplitAt(candidates, p);
    Seqs.HeadTail(candidates[p..]);
    MatchingConcat(before, candidates[p..], search);
    MatchingConcat([c], after, search);
    MatchingOne(c, search);
    AnswersMatch(before, search);
  }

  lemma MetKeepsFirsts(kept: seq<Candidate>, candidates: seq<Candidate>, search: string, n: int)
    requires ChannelMet(kept, candidates, search, n)
    ensures FirstsKept(kept, candidates, search, n)
  {
    forall p | 0 <= p < |candidates| && search in candidates[p].matchedSearches && Answers(candidates[..p], search) < n
      ensures candidates[p].key in Keys(kept)
    {
      MatchingAt(candidates, search, p);
      assert Take(Matching(candidates, search), n)[Answers(candidates[..p], search)] == candidates[p];
    }
  }

  /** From limit 6 up each channel is sure of its places, whatever the candidates. */
  lemma QuotasAreKept(candidates: seq<Candidate>, limit: int)
    requires limit >= 6
    ensures var kept := Selected(candidates, limit);
            forall search :: search in CHANNELS ==> FirstsKept(kept, candidates, search, QuotaOf(search, limit))
  {
    var kept := Selected(candidates, limit);
    QuotasAreMet(candidates, limit);
    forall search | search in CHANNELS
      ensures FirstsKept(kept, candidates, search, QuotaOf(search, limit))
    {
      var k := PlaceOf(search, limit);
      ChannelIsMetAt(kept, candidates, limit, k);
      MetKeepsFirsts(kept, candidates, search, QuotaOf(search, limit));
    }
  }

  lemma PlaceOf(search: string, limit: int) returns (k: nat)
    requires search in CHANNELS
    ensures k < |Reserved(limit)| && Reserved(limit)[k] == (search, QuotaOf(search, limit))
  {
    k := match search
      case "semantic_query" => 0
      case "error_pattern" => 1
      case "title_keywords" => 2
      case "popular_area" => 3
      case _ => 4;
  }

  lemma ChannelIsMetAt(kept: seq<Candidate>, candidates: seq<Candidate>, limit: int, k: nat)
    requires QuotasMet(kept, candidates, limit) && k < |Reserved(limit)|
    ensures ChannelMet(kept, candidates, Reserved(limit)[k].0, Reserved(limit)[k].1)
  {
  }

  // ----- and of no more -----

  // As many candidates as there are places, which answer no channel.
  function Fillers(n: nat): seq<Candidate> {
    seq(n, i requires 0 <= i < n => Candidate(seq(i + 1, _ => 'f'), []))
  }

  // Candidates that answer one channel.
  function Marked(n: nat, search: string): seq<Candidate> {
    seq(n, i requires 0 <= i < n => Candidate(seq(i + 1, _ => 'm'), [search]))
  }

  lemma KeysDiffer(n: nat, m: nat, search: string)
    ensures DistinctKeys(Fillers(n)) && DistinctKeys(Marked(m, search))
    ensures Keys(Fillers(n)) !! Keys(Marked(m, search))
  {
    forall i, j | 0 <= i < j < n
      ensures Fillers(n)[i].key != Fillers(n)[j].key
    {
      assert |Fillers(n)[i].key| != |Fillers(n)[j].key|;
    }
    forall i, j | 0 <= i < j < m
      ensures Marked(m, search)[i].key != Marked(m, search)[j].key
    {
      assert |Marked(m, search)[i].key| != |Marked(m, search)[j].key|;
    }
    forall x | x in Keys(Fillers(n))
      ensures x[..1] == "f"
    {
    }
    forall x | x in Keys(Marked(m, search))
      ensures x[..1] == "m"
    {
    }
    assert "f"[0] != "m"[0];
  }

  lemma {:induction false} NoneMatch(candidates: seq<Candidate>, search: string)
    requires forall c :: c in candidates ==> search !in c.matchedSearches
    ensures Matching(candidates, search) == []
  {
    if candidates != [] {
      assert candidates[0] in candidates;
      NoneMatch(candidates[1..], search);
    }
  }

  lemma {:induction false} AllMatch(candidates: seq<Candidate>, search: string)
    requires forall c :: c in candidates ==> search in c.matchedSearches
    ensures Matching(candidates, search) == candidates
  {
    if candidates != [] {
      assert candidates[0] in candidates;
      AllMatch(candidates[1..], search);
      Seqs.HeadTail(candidates);
    }
  }

  // What the channels find among fillers and candidates of one of them.
  lemma MatchingOfOther(n: nat, m: nat, search: string, other: string)
    requires other != search
    ensures Matching(Fillers(n) + Marked(m, search), other) == []
  {
    MatchingConcat(Fillers(n), Marked(m, search), other);
    NoneMatch(Fillers(n), other);
    NoneMatch(Marked(m, search), other);
  }

  lemma MatchingOfOwn(n: nat, m: nat, search: string)
    ensures Matching(Fillers(n) + Marked(m, search), search) == Marked(m, search)
  {
    MatchingConcat(Fillers(n), Marked(m, search), search);
    NoneMatch(Fillers(n), search);
    AllMatch(Marked(m, search), search);
    Seqs.NoMore(Marked(m, search));
  }

  lemma {:induction false} NothingOffered(candidates: seq<Candidate>, channels: seq<(string, int)>)
    requires forall j :: 0 <= j < |channels| ==> Matching(candidates, channels[j].0) == []
    ensures Offered(candidates, channels) == []
  {
    if channels != [] {
      NothingOffered(candidates, channels[..|channels| - 1]);
    }
  }

  // Only one channel finds anything.
  lemma {:induction false} OneOffers(candidates: seq<Candidate>, channels: seq<(string, int)>, k: nat)
    requires k < |channels| && forall j :: 0 <= j < |channels| && j != k ==> Matching(candidates, channels[j].0) == []
    ensures Offered(candidates, channels) == Take(Matching(candidates, channels[k].0), channels[k].1)
  {
    var front := channels[..|channels| - 1];
    var taken := Take(Matching(candidates, channels[k].0), channels[k].1);
    Seqs.NoMore(taken);
    if k == |channels| - 1 {
      NothingOffered(candidates, front);
    } else {
      OneOffers(candidates, front, k);
      assert Take(Matching(candidates, channels[|channels| - 1].0), channels[|channels| - 1].1) == [];
    }
  }

  ghost predicate DistinctNames(channels: seq<(string, int)>) {
    forall i, j :: 0 <= i < |channels| && 0 <= j < |channels| && i != j ==> channels[i].0 != channels[j].0
  }

  lemma ReservedNames(limit: int)
    ensures DistinctNames(Reserved(limit))
  {
    assert "semantic_query"[0] == 's' && "error_pattern"[0] == 'e' && "title_keywords"[0] == 't';
    assert "popular_area"[0] == 'p' && "area_label"[0] == 'a';
  }

  lemma OfferedOfMarked(n: nat, m: nat, channels: seq<(string, int)>, k: nat)
    requires k < |channels| && DistinctNames(channels)
    ensures Offered(Fillers(n) + Marked(m, channels[k].0), channels) == Take(Marked(m, channels[k].0), channels[k].1)
  {
    forall j | 0 <= j < |channels| && j != k
      ensures Matching(Fillers(n) + Marked(m, channels[k].0), channels[j].0) == []
    {
      MatchingOfOther(n, m, channels[k].0, channels[j].0);
    }
    MatchingOfOwn(n, m, channels[k].0);
    OneOffers(Fillers(n) + Marked(m, channels[k].0), channels, k);
  }

  // ----- the order of the selection -----

  lemma OfferedFive(candidates: seq<Candidate>, a: (string, int), b: (string, int), c: (string, int), d: (string, int), e: (string, int))
    ensures Offered(candidates, [a, b, c, d, e]) ==
            Take(Matching(candidates, a.0), a.1) + Take(Matching(candidates, b.0), b.1) +
            Take(Matching(candidates, c.0), c.1) + Take(Matching(candidates, d.0), d.1) + Take(Matching(candidates, e.0), e.1)
  {
    assert [a, b, c, d, e][..4] == [a, b, c, d] && [a, b, c, d][..3] == [a, b, c];
    assert [a, b, c][..2] == [a, b] && [a, b][..1] == [a] && [a][..0] == [];
    var first := Take(Matching(candidates, a.0), a.1);
    Seqs.NoMore(first);
    assert Offered(candidates, []) == [];
    assert Offered(candidates, [a]) == first;
    assert Offered(candidates, [a, b]) == first + Take(Matching(candidates, b.0), b.1);
    assert Offered(candidates, [a, b, c]) == Offered(candidates, [a, b]) + Take(Matching(candidates, c.0), c.1);
  }

  // The reserved places, channel by channel.
  function InChannelOrder(candidates: seq<Candidate>, limit: int): seq<Candidate> {
    Take(Matching(candidates, "semantic_query"), Larger(2, limit / 3)) +
    Take(Matching(candidates, "error_pattern"), Larger(1, limit / 10)) +
    Take(Matching(candidates, "title_keywords"), Larger(1, limit / 6)) +
    Take(Matching(candidates, "popular_area"), Larger(1, limit / 5)) +
    Take(Matching(candidates, "area_label"), Larger(1, limit / 6))
  }

  lemma OfferedInOrder(candidates: seq<Candidate>, limit: int)
    ensures Offered(candidates, Reserved(limit)) == InChannelOrder(candidates, limit)
  {
    OfferedFive(candidates,
                ("semantic_query", Larger(2, limit / 3)),
                ("error_pattern", Larger(1, limit / 10)),
                ("title_keywords", Larger(1, limit / 6)),
                ("popular_area", Larger(1, limit / 5)),
                ("area_label", Larger(1, limit / 6)));
  }

  // `kept` begins with the offered candidates, each once; the rest of it are the first others in input order.
  ghost predicate BeginsWith(kept: seq<Candidate>, candidates: seq<Candidate>, offered: seq<Candidate>, limit: int) {
    var reserved := Firsts(offered);
    kept == reserved + Take(Firsts(Excluding(candidates, Keys(reserved))), limit - |reserved|)
  }

  lemma LeftoversAfter(candidates: seq<Candidate>, channels: seq<(string, int)>, limit: int, offered: seq<Candidate>)
    requires LeftoversInOrder(candidates, channels, limit) && Offered(candidates, channels) == offered
    ensures BeginsWith(SelectedFrom(candidates, channels, limit), candidates, offered, limit)
  {
  }

  /** From limit 6 up the selection begins with the reserved candidates, channel by channel, each once; the rest of
      it are the first of the others in input order. */
  lemma ReservedComeFirst(candidates: seq<Candidate>, limit: int)
    requires limit >= 6
    ensures BeginsWith(Selected(candidates, limit), candidates, InChannelOrder(candidates, limit), limit)
  {
    LeftoversKeepInputOrder(candidates, limit);
    OfferedInOrder(candidates, limit);
    LeftoversAfter(candidates, Reserved(limit), limit, InChannelOrder(candidates, limit));
  }

  // ----- one too many -----

  lemma {:induction false} ExcludingConcat(a: seq<Candidate>, b: seq<Candidate>, taken: set<string>)
    ensures Excluding(a + b, taken) == Excluding(a, taken) + Excluding(b, taken)
  {
    if b == [] {
      Seqs.NoMore(a);
      Seqs.NoMore(Excluding(a, taken));
    } else {
      var last := b[|b| - 1];
      ExcludingConcat(a, b[..|b| - 1], taken);
      Seqs.FrontOfConcat(a, b);
      Seqs.Regroup(Excluding(a, taken), Excluding(b[..|b| - 1], taken), if last.key in taken then [] else [last]);
    }
  }

  lemma {:induction false} ExcludingNone(s: seq<Candidate>, taken: set<string>)
    requires Keys(s) !! taken
    ensures Excluding(s, taken) == s
  {
    if s != [] {
      var front, last := s[..|s| - 1], s[|s| - 1];
      Seqs.FrontLast(s);
      KeysAppend(front, last);
      ExcludingNone(front, taken);
    }
  }

  // When as many unreserved candidates come first, nothing after them is chosen.
  lemma OnlyTheFirst(fillers: seq<Candidate>, others: seq<Candidate>, taken: set<string>, places: int)
    requires DistinctKeys(fillers) && Keys(fillers) !! taken && places <= |fillers|
    ensures Keys(Take(Firsts(Excluding(fillers + others, taken)), places)) <= Keys(fillers)
  {
    ExcludingConcat(fillers, others, taken);
    ExcludingNone(fillers, taken);
    var rest := Excluding(others, taken);
    FirstsSplit(fillers, rest);
    FirstsKeepKeys(fillers);
    CountKeys(fillers);
    CountKeys(Firsts(fillers));
    var kept := Take(Firsts(fillers + rest), places);
    forall c | c in kept
      ensures c.key in Keys(fillers)
    {
      var i :| 0 <= i < |kept| && kept[i] == c;
      assert Firsts(fillers)[i] == c;
    }
  }

  lemma MarkedBefore(q: nat, m: nat, search: string, taken: seq<Candidate>)
    requires q < m && taken == Take(Marked(m, search), q)
    ensures Marked(m, search)[q].key !in Keys(taken)
  {
    forall c | c in taken
      ensures c.key != Marked(m, search)[q].key
    {
      var i :| 0 <= i < |taken| && taken[i] == c;
      assert |c.key| == i + 1;
    }
  }

  // What is selected when only one channel finds anything, after enough candidates of none.
  lemma LastIsLost(limit: int, channels: seq<(string, int)>, k: nat)
    requires k < |channels| && DistinctNames(channels) && 0 <= channels[k].1 && 0 <= limit
    requires var (search, q) := channels[k]; LeftoversInOrder(Fillers(limit) + Marked(q + 1, search), channels, limit)
    ensures var (search, q) := channels[k];
            Marked(q + 1, search)[q].key !in Keys(SelectedFrom(Fillers(limit) + Marked(q + 1, search), channels, limit))
  {
    var (search, q) := channels[k];
    var fillers, marked := Fillers(limit), Marked(q + 1, search);
    var taken := Take(marked, q);
    KeysDiffer(limit, q + 1, search);
    OfferedOfMarked(limit, q + 1, channels, k);
    LeftoversAfter(fillers + marked, channels, limit, taken);
    MarkedBefore(q, q + 1, search, taken);
    KeysOfSome(marked, taken);
    assert marked[q] in marked;
    LostAmong(SelectedFrom(fillers + marked, channels, limit), fillers, marked, taken, limit, marked[q].key);
  }

  lemma LostAmong(
      kept: seq<Candidate>, fillers: seq<Candidate>, others: seq<Candidate>, taken: seq<Candidate>, limit: int, x: string)
    requires BeginsWith(kept, fillers + others, taken, limit)
    requires DistinctKeys(fillers) && limit <= |fillers| && Keys(fillers) !! Keys(taken)
    requires x !in Keys(fillers) && x !in Keys(taken)
    ensures x !in Keys(kept)
  {
    var reserved := Firsts(taken);
    FirstsKeepKeys(taken);
    OnlyTheFirst(fillers, others, Keys(reserved), limit - |reserved|);
    KeysConcat(reserved, Take(Firsts(Excluding(fillers + others, Keys(reserved))), limit - |reserved|));
  }

  lemma KeysOfSome(all: seq<Candidate>, some: seq<Candidate>)
    requires forall i :: 0 <= i < |some| ==> some[i] in all
    ensures Keys(some) <= Keys(all)
  {
  }

  lemma KeysConcat(a: seq<Candidate>, b: seq<Candidate>)
    ensures Keys(a + b) == Keys(a) + Keys(b)
  {
  }

  // One more of a channel's candidates than it has places for is lost among enough others.
  lemma OneTooMany(limit: int, search: string) returns (candidates: seq<Candidate>)
    requires limit >= 6 && search in CHANNELS
    ensures !FirstsKept(Selected(candidates, limit), candidates, search, QuotaOf(search, limit) + 1)
  {
    var k := PlaceOf(search, limit);
    var q := Reserved(limit)[k].1;
    candidates := Fillers(limit) + Marked(q + 1, search);
    ReservedNames(limit);
    LeftoversKeepInputOrder(candidates, limit);
    LastIsLost(limit, Reserved(limit), k);
    LostIsNotKept(Selected(candidates, limit), limit, search, q);
  }

  lemma LostIsNotKept(kept: seq<Candidate>, n: nat, search: string, q: nat)
    requires Marked(q + 1, search)[q].key !in Keys(kept)
    ensures !FirstsKept(kept, Fillers(n) + Marked(q + 1, search), search, q + 1)
  {
    var candidates := Fillers(n) + Marked(q + 1, search);
    AnswersUpTo(n, q, search);
    assert candidates[n + q] == Marked(q + 1, search)[q];
  }

  lemma AnswersUpTo(n: nat, q: nat, search: string)
    ensures Answers((Fillers(n) + Marked(q + 1, search))[..n + q], search) == q
  {
    assert (Fillers(n) + Marked(q + 1, search))[..n + q] == Fillers(n) + Marked(q, search);
    MatchingOfOwn(n, q, search);
    AnswersMatch(Fillers(n) + Marked(q, search), search);
  }

  /** From limit 6 up a channel's first `n` candidates are kept, whatever the input, exactly for `n` up to its quota. */
  lemma QuotaIsExact(limit: int, search: string, n: int)
    requires limit >= 6 && search in CHANNELS
    ensures (forall candidates :: FirstsKept(Selected(candidates, limit), candidates, search, n)) <==> n <= QuotaOf(search, limit)
  {
    if n <= QuotaOf(search, limit) {
      forall candidates
        ensures FirstsKept(Selected(candidates, limit), candidates, search, n)
      {
        QuotasAreKept(candidates, limit);
        assert FirstsKept(Selected(candidates, limit), candidates, search, QuotaOf(search, limit));
      }
    } else {
      var candidates := OneTooMany(limit, search);
    }
  }
}
