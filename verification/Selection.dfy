/**
 Choosing which search candidates to keep
 (script/github-check-new-issue-for-duplicates.py, select_search_candidates):
 each retrieval channel has a quota, the rest go in input order.
 */
module Selection {
  import Seqs

  datatype Candidate = Candidate(key: string, matchedSearches: seq<string>)

  function AtLeast(low: int, x: int): int {
    if x < low then low else x
  }

  // The channels and their quotas; `/` floors here, as `//` does.
  function Reserved(limit: int): seq<(string, int)> {
    [("semantic_query", AtLeast(2, limit / 3)),
     ("error_pattern", AtLeast(1, limit / 10)),
     ("title_keywords", AtLeast(1, limit / 6)),
     ("popular_area", AtLeast(1, limit / 5)),
     ("area_label", AtLeast(1, limit / 6))]
  }

  function Matching(candidates: seq<Candidate>, search: string): seq<Candidate> {
    if candidates == [] then []
    else (if search in candidates[0].matchedSearches then [candidates[0]] else []) + Matching(candidates[1..], search)
  }

  // `s[:n]`, for the non-negative n the script uses.
  function Take(s: seq<Candidate>, n: int): (r: seq<Candidate>)
    ensures |r| == if n < 0 then 0 else if n < |s| then n else |s|
    ensures forall i :: 0 <= i < |r| ==> r[i] == s[i]
  {
    if n < 0 then [] else if n < |s| then s[..n] else s
  }

  function Keys(s: seq<Candidate>): set<string> {
    set c | c in s :: c.key
  }

  // ----- the specification: the first of each key, up to the limit -----

  // The first occurrence of each key.
  function Firsts(s: seq<Candidate>): seq<Candidate> {
    if s == [] then []
    else AddFirst(Firsts(s[..|s| - 1]), s[|s| - 1])
  }

  function AddFirst(s: seq<Candidate>, c: Candidate): seq<Candidate> {
    if c.key in Keys(s) then s else s + [c]
  }

  // What the first loop offers: each channel's first candidates, channel by channel.
  function Offered(candidates: seq<Candidate>, channels: seq<(string, int)>): seq<Candidate> {
    if channels == [] then []
    else
      var (search, quota) := channels[|channels| - 1];
      Offered(candidates, channels[..|channels| - 1]) + Take(Matching(candidates, search), quota)
  }

  function SelectedFrom(candidates: seq<Candidate>, channels: seq<(string, int)>, limit: int): seq<Candidate> {
    Take(Firsts(Offered(candidates, channels) + candidates), limit)
  }

  function Selected(candidates: seq<Candidate>, limit: int): seq<Candidate> {
    SelectedFrom(candidates, Reserved(limit), limit)
  }

  ghost predicate DistinctKeys(s: seq<Candidate>) {
    forall i, j :: 0 <= i < j < |s| ==> s[i].key != s[j].key
  }

  lemma KeysAppend(s: seq<Candidate>, c: Candidate)
    ensures Keys(s + [c]) == Keys(s) + {c.key}
  {
  }

  lemma {:induction false} FirstsKeepKeys(s: seq<Candidate>)
    ensures DistinctKeys(Firsts(s)) && Keys(Firsts(s)) == Keys(s) && |Firsts(s)| <= |s|
  {
    if s != [] {
      var front, last := s[..|s| - 1], s[|s| - 1];
      FirstsKeepKeys(front);
      KeysAppend(front, last);
      Seqs.FrontLast(s);
    }
  }

  lemma {:induction false} CountKeys(s: seq<Candidate>)
    requires DistinctKeys(s)
    ensures |Keys(s)| == |s|
  {
    if s != [] {
      var front, last := s[..|s| - 1], s[|s| - 1];
      CountKeys(front);
      assert last.key !in Keys(front);
      KeysAppend(front, last);
      Seqs.FrontLast(s);
    }
  }

  // The members of `s` whose key is not among `taken`, in order.
  function Excluding(s: seq<Candidate>, taken: set<string>): seq<Candidate> {
    if s == [] then []
    else Excluding(s[..|s| - 1], taken) + (if s[|s| - 1].key in taken then [] else [s[|s| - 1]])
  }

  lemma AddFirstBeyond(a: seq<Candidate>, b: seq<Candidate>, c: Candidate)
    requires c.key !in Keys(a)
    ensures AddFirst(a + b, c) == a + AddFirst(b, c)
  {
    Seqs.Regroup(a, b, [c]);
  }

  lemma {:induction false} FirstsSplit(a: seq<Candidate>, b: seq<Candidate>)
    ensures Firsts(a + b) == Firsts(a) + Firsts(Excluding(b, Keys(a)))
  {
    if b == [] {
      Seqs.NoMore(a);
      Seqs.NoMore(Firsts(a));
    } else {
      var front, last := b[..|b| - 1], b[|b| - 1];
      var more := Excluding(front, Keys(a));
      FirstsSplit(a, front);
      Seqs.FrontOfConcat(a, b);
      FirstsKeepKeys(a);
      Seqs.NoMore(more);
      if last.key in Keys(a) {
      } else {
        AddFirstBeyond(Firsts(a), Firsts(more), last);
      }
    }
  }

  // ----- the guarantee -----

  /** The five quotas fit in the limit exactly from 6 up. */
  lemma QuotasFitIff(limit: int)
    ensures (AtLeast(2, limit / 3) + AtLeast(1, limit / 10) + AtLeast(1, limit / 6) + AtLeast(1, limit / 5) +
             AtLeast(1, limit / 6) <= limit) <==> limit >= 6
  {
    if limit >= 30 {
      assert 30 * (limit / 3) <= 10 * limit && 30 * (limit / 10) <= 3 * limit;
      assert 30 * (limit / 6) <= 5 * limit && 30 * (limit / 5) <= 6 * limit;
    }
  }

  // Every channel's first candidates, as many as its quota, are among `s`.
  ghost predicate QuotasMetBy(s: seq<Candidate>, candidates: seq<Candidate>, channels: seq<(string, int)>) {
    forall k :: 0 <= k < |channels| ==> ChannelMet(s, candidates, channels[k].0, channels[k].1)
  }

  ghost predicate ChannelMet(s: seq<Candidate>, candidates: seq<Candidate>, search: string, quota: int) {
    Keys(Take(Matching(candidates, search), quota)) <= Keys(s)
  }

  ghost predicate QuotasMet(s: seq<Candidate>, candidates: seq<Candidate>, limit: int) {
    QuotasMetBy(s, candidates, Reserved(limit))
  }

  lemma {:induction false} OfferedHolds(candidates: seq<Candidate>, channels: seq<(string, int)>)
    ensures QuotasMetBy(Offered(candidates, channels), candidates, channels)
  {
    if channels != [] {
      var front := channels[..|channels| - 1];
      var (search, quota) := channels[|channels| - 1];
      var offered, more := Offered(candidates, front), Take(Matching(candidates, search), quota);
      OfferedHolds(candidates, front);
      Seqs.FrontLast(channels);
    }
  }

  function QuotaSum(channels: seq<(string, int)>): int {
    if channels == [] then 0 else QuotaSum(channels[..|channels| - 1]) + AtLeast(0, channels[|channels| - 1].1)
  }

  lemma {:induction false} OfferedIsShort(candidates: seq<Candidate>, channels: seq<(string, int)>)
    ensures |Offered(candidates, channels)| <= QuotaSum(channels)
  {
    if channels != [] {
      OfferedIsShort(candidates, channels[..|channels| - 1]);
    }
  }

  lemma SumOfFive(a: (string, int), b: (string, int), c: (string, int), d: (string, int), e: (string, int))
    ensures QuotaSum([a, b, c, d, e]) ==
            AtLeast(0, a.1) + AtLeast(0, b.1) + AtLeast(0, c.1) + AtLeast(0, d.1) + AtLeast(0, e.1)
  {
    assert [a, b, c, d, e][..4] == [a, b, c, d] && [a, b, c, d][..3] == [a, b, c];
    assert [a, b, c][..2] == [a, b] && [a, b][..1] == [a] && [a][..0] == [];
    assert QuotaSum([a]) == AtLeast(0, a.1);
    assert QuotaSum([a, b, c]) == QuotaSum([a, b]) + AtLeast(0, c.1);
  }

  lemma ReservedFits(limit: int)
    requires limit >= 6
    ensures QuotaSum(Reserved(limit)) <= limit
  {
    var r := Reserved(limit);
    SumOfFive(r[0], r[1], r[2], r[3], r[4]);
    QuotasFitIff(limit);
  }

  // What is left after the reserved ones goes in input order to the candidates not yet taken.
  ghost predicate LeftoversInOrder(candidates: seq<Candidate>, channels: seq<(string, int)>, limit: int) {
    var reserved := Firsts(Offered(candidates, channels));
    SelectedFrom(candidates, channels, limit) ==
    reserved + Take(Firsts(Excluding(candidates, Keys(reserved))), limit - |reserved|)
  }

  lemma LeftoversFrom(candidates: seq<Candidate>, channels: seq<(string, int)>, limit: int)
    requires QuotaSum(channels) <= limit
    ensures LeftoversInOrder(candidates, channels, limit)
    ensures |Firsts(Offered(candidates, channels))| <= limit
  {
    var offered := Offered(candidates, channels);
    OfferedIsShort(candidates, channels);
    FirstsKeepKeys(offered);
    TakeOfFirsts(offered, candidates, limit);
  }

  lemma TakeOfFirsts(a: seq<Candidate>, b: seq<Candidate>, limit: int)
    requires |Firsts(a)| <= limit
    ensures Take(Firsts(a + b), limit) == Firsts(a) + Take(Firsts(Excluding(b, Keys(Firsts(a)))), limit - |Firsts(a)|)
  {
    FirstsSplit(a, b);
    FirstsKeepKeys(a);
  }

  /** From limit 6 up, after the reserved ones the free places go, in input order, to the candidates not yet taken. */
  lemma LeftoversKeepInputOrder(candidates: seq<Candidate>, limit: int)
    requires limit >= 6
    ensures LeftoversInOrder(candidates, Reserved(limit), limit)
  {
    ReservedFits(limit);
    LeftoversFrom(candidates, Reserved(limit), limit);
  }

  lemma QuotasMetFrom(candidates: seq<Candidate>, channels: seq<(string, int)>, limit: int)
    requires QuotaSum(channels) <= limit
    ensures QuotasMetBy(SelectedFrom(candidates, channels, limit), candidates, channels)
  {
    var offered := Offered(candidates, channels);
    var reserved := Firsts(offered);
    LeftoversFrom(candidates, channels, limit);
    FirstsKeepKeys(offered);
    OfferedHolds(candidates, channels);
  }

  /** From limit 6 up, no channel loses any of its first candidates, whatever the input. */
  lemma QuotasAreMet(candidates: seq<Candidate>, limit: int)
    requires limit >= 6
    ensures QuotasMet(Selected(candidates, limit), candidates, limit)
  {
    ReservedFits(limit);
    QuotasMetFrom(candidates, Reserved(limit), limit);
  }

  /** Keys never repeat, and the selection is as large as the limit and the distinct keys allow. */
  lemma SelectionIsFull(candidates: seq<Candidate>, limit: int)
    ensures DistinctKeys(Selected(candidates, limit))
    ensures |Selected(candidates, limit)| ==
            if limit < 0 then 0 else if limit < |Keys(candidates)| then limit else |Keys(candidates)|
    ensures Keys(Selected(candidates, limit)) <= Keys(candidates)
  {
    var offered := Offered(candidates, Reserved(limit));
    var all := offered + candidates;
    OfferedAreCandidates(candidates, Reserved(limit));
    assert Keys(all) == Keys(candidates);
    FirstsKeepKeys(all);
    CountKeys(Firsts(all));
  }

  lemma {:induction false} MatchingAreCandidates(candidates: seq<Candidate>, search: string)
    ensures forall c :: c in Matching(candidates, search) ==> c in candidates
  {
    if candidates != [] {
      MatchingAreCandidates(candidates[1..], search);
    }
  }

  lemma {:induction false} OfferedAreCandidates(candidates: seq<Candidate>, channels: seq<(string, int)>)
    ensures forall c :: c in Offered(candidates, channels) ==> c in candidates
    ensures Keys(Offered(candidates, channels)) <= Keys(candidates)
  {
    if channels != [] {
      OfferedAreCandidates(candidates, channels[..|channels| - 1]);
      MatchingAreCandidates(candidates, channels[|channels| - 1].0);
    }
  }

  // ----- below 6 the guarantee fails -----

  // A distinct candidate for every reserved place of a limit below 6.
  function Rivals(): seq<Candidate> {
    [Candidate("1", ["semantic_query"]), Candidate("2", ["semantic_query"]), Candidate("3", ["error_pattern"]),
     Candidate("4", ["title_keywords"]), Candidate("5", ["popular_area"]), Candidate("6", ["area_label"])]
  }

  lemma {:induction false} MemberMatches(candidates: seq<Candidate>, c: Candidate, search: string)
    requires c in candidates && search in c.matchedSearches
    ensures c in Matching(candidates, search)
  {
    if c != candidates[0] {
      MemberMatches(candidates[1..], c, search);
    }
  }

  function IfMatching(c: Candidate, search: string): seq<Candidate> {
    if search in c.matchedSearches then [c] else []
  }

  lemma MatchingOfSix(a: Candidate, b: Candidate, c: Candidate, d: Candidate, e: Candidate, f: Candidate, search: string)
    ensures |Matching([a, b, c, d, e, f], search)| ==
            |IfMatching(a, search)| + |IfMatching(b, search)| + |IfMatching(c, search)| +
            |IfMatching(d, search)| + |IfMatching(e, search)| + |IfMatching(f, search)|
  {
    assert [a, b, c, d, e, f][1..] == [b, c, d, e, f] && [b, c, d, e, f][1..] == [c, d, e, f];
    assert [c, d, e, f][1..] == [d, e, f] && [d, e, f][1..] == [e, f] && [e, f][1..] == [f] && [f][1..] == [];
    assert |Matching([f], search)| == |IfMatching(f, search)|;
    assert |Matching([d, e, f], search)| == |IfMatching(d, search)| + |Matching([e, f], search)|;
    assert |Matching([b, c, d, e, f], search)| == |IfMatching(b, search)| + |Matching([c, d, e, f], search)|;
  }

  lemma MatchingIsShort(search: string)
    ensures |Matching(Rivals(), search)| <= if search == "semantic_query" then 2 else 1
  {
    var r := Rivals();
    MatchingOfSix(r[0], r[1], r[2], r[3], r[4], r[5], search);
  }

  // A rival's key must be kept where the channel it answers is met.
  lemma RivalIsKept(kept: seq<Candidate>, c: Candidate, search: string, quota: int)
    requires ChannelMet(kept, Rivals(), search, quota) && quota >= if search == "semantic_query" then 2 else 1
    requires c in Rivals() && search in c.matchedSearches
    ensures c.key in Keys(kept)
  {
    MatchingIsShort(search);
    MemberMatches(Rivals(), c, search);
    assert Take(Matching(Rivals(), search), quota) == Matching(Rivals(), search);
  }

  lemma ChannelIsMet(kept: seq<Candidate>, limit: int, k: nat)
    requires QuotasMet(kept, Rivals(), limit) && k < |Reserved(limit)|
    ensures ChannelMet(kept, Rivals(), Reserved(limit)[k].0, Reserved(limit)[k].1)
  {
  }

  lemma RivalsAreKept(kept: seq<Candidate>, limit: int)
    requires QuotasMet(kept, Rivals(), limit)
    ensures {"1", "2", "3", "4", "5", "6"} <= Keys(kept)
  {
    var r := Reserved(limit);
    ChannelIsMet(kept, limit, 0);
    ChannelIsMet(kept, limit, 1);
    ChannelIsMet(kept, limit, 2);
    ChannelIsMet(kept, limit, 3);
    ChannelIsMet(kept, limit, 4);
    RivalIsKept(kept, Rivals()[0], "semantic_query", r[0].1);
    RivalIsKept(kept, Rivals()[1], "semantic_query", r[0].1);
    RivalIsKept(kept, Rivals()[2], "error_pattern", r[1].1);
    RivalIsKept(kept, Rivals()[3], "title_keywords", r[2].1);
    RivalIsKept(kept, Rivals()[4], "popular_area", r[3].1);
    RivalIsKept(kept, Rivals()[5], "area_label", r[4].1);
  }

  lemma SixKeys()
    ensures |{"1", "2", "3", "4", "5", "6"}| == 6
  {
    assert "1"[0] == '1' && "2"[0] == '2' && "3"[0] == '3' && "4"[0] == '4' && "5"[0] == '5' && "6"[0] == '6';
  }

  lemma RivalsDefeat(limit: int)
    requires limit < 6
    ensures !QuotasMet(Selected(Rivals(), limit), Rivals(), limit)
  {
    var kept := Selected(Rivals(), limit);
    SelectionIsFull(Rivals(), limit);
    CountKeys(kept);
    SixKeys();
    if QuotasMet(kept, Rivals(), limit) {
      RivalsAreKept(kept, limit);
      SubsetIsSmaller({"1", "2", "3", "4", "5", "6"}, Keys(kept));
    }
  }

  lemma SubsetIsSmaller(a: set<string>, b: set<string>)
    requires a <= b
    ensures |a| <= |b|
  {
    assert b == a + (b - a);
  }

  /** The guarantee holds for every candidate list exactly when the limit is at least 6. */
  lemma GuaranteeIff(limit: int)
    ensures (forall candidates :: QuotasMet(Selected(candidates, limit), candidates, limit)) <==> limit >= 6
  {
    if limit >= 6 {
      forall candidates
        ensures QuotasMet(Selected(candidates, limit), candidates, limit)
      {
        QuotasAreMet(candidates, limit);
      }
    } else {
      RivalsDefeat(limit);
    }
  }

  // ----- the code -----

  // `selected` after offering `c` to it.
  function Add(selected: seq<Candidate>, c: Candidate, limit: int): seq<Candidate> {
    if c.key !in Keys(selected) && |selected| < limit then selected + [c] else selected
  }

  // Offering one by one is taking the firsts up to the limit.
  lemma AddIsTake(s: seq<Candidate>, c: Candidate, limit: int)
    ensures Add(Take(Firsts(s), limit), c, limit) == Take(Firsts(s + [c]), limit)
  {
  }

  // The script's inner function `add`, over a list: `before` is what was offered already.
  method AddEach(selected: seq<Candidate>, ghost before: seq<Candidate>, more: seq<Candidate>, limit: int)
    returns (r: seq<Candidate>)
    requires selected == Take(Firsts(before), limit)
    ensures r == Take(Firsts(before + more), limit)
  {
    var selectedKeys := Keys(selected);
    r := selected;
    Seqs.NoMore(before);
    for i := 0 to |more|
      invariant r == Take(Firsts(before + more[..i]), limit)
      invariant selectedKeys == Keys(r)
    {
      var c := more[i];
      OneMore(before, more, i);
      AddIsTake(before + more[..i], c, limit);
      KeysAppend(r, c);
      if c.key !in selectedKeys && |r| < limit {
        r := r + [c];
        selectedKeys := selectedKeys + {c.key};
      }
    }
    assert more[..|more|] == more;
  }

  lemma OneMore(before: seq<Candidate>, more: seq<Candidate>, i: nat)
    requires i < |more|
    ensures before + more[..i + 1] == before + more[..i] + [more[i]]
  {
  }

  method SelectSearchCandidates(candidates: seq<Candidate>, limit: int) returns (selected: seq<Candidate>)
    ensures selected == Selected(candidates, limit)
  {
    var reserved := Reserved(limit);
    selected := OfferReserved(candidates, reserved, limit);
    selected := AddEach(selected, Offered(candidates, reserved), candidates, limit);
  }

  method OfferReserved(candidates: seq<Candidate>, reserved: seq<(string, int)>, limit: int)
    returns (selected: seq<Candidate>)
    ensures selected == Take(Firsts(Offered(candidates, reserved)), limit)
  {
    selected := [];
    for r := 0 to |reserved|
      invariant selected == Take(Firsts(Offered(candidates, reserved[..r])), limit)
    {
      var (search, quota) := reserved[r];
      var matching := Matching(candidates, search);
      selected := AddEach(selected, Offered(candidates, reserved[..r]), Take(matching, quota), limit);
      assert reserved[..r + 1][..r] == reserved[..r];
    }
    assert reserved[..|reserved|] == reserved;
  }
}
