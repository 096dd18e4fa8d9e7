/** Consensus of provider votes (commands/gold.rs). */
module Consensus {
  import opened Orders
  import opened Text

  datatype SampleLabel = Benign | Suspicious | Malicious

  datatype ProviderVote = ProviderVote(provider: string, verdict: string)

  function LabelOf(verdict: string): Option<SampleLabel> {
    var v := Lower(Trim(verdict));
    if v == "malicious" then Some(Malicious)
    else if v == "benign" then Some(Benign)
    else if v == "suspicious" then Some(Suspicious)
    else None
  }

  function KeyOf(provider: string): string { Lower(Trim(provider)) }

  // ---- What a cohort of votes means ----

  /** Some vote of provider `p` carries `choice`. */
  ghost predicate Voted(votes: seq<ProviderVote>, p: string, choice: SampleLabel) {
    exists v :: v in votes && KeyOf(v.provider) == p && LabelOf(v.verdict) == Some(choice)
  }

  /** Provider `p` voted for `choice` and for nothing else. */
  ghost predicate Holds(votes: seq<ProviderVote>, p: string, choice: SampleLabel) {
    Voted(votes, p, choice) && forall other :: Voted(votes, p, other) ==> other == choice
  }

  function Providers(votes: seq<ProviderVote>): set<string> {
    set v | v in votes :: KeyOf(v.provider)
  }

  ghost function Holders(votes: seq<ProviderVote>, choice: SampleLabel): set<string> {
    set p | p in Providers(votes) && Holds(votes, p, choice)
  }

  ghost predicate Qualifies(votes: seq<ProviderVote>, choice: SampleLabel) {
    |Holders(votes, choice)| >= 2
  }

  // ---- llm_consensus ----

  /** The map after the loop: a conflicting provider stays at None for good. */
  ghost predicate Tallied(votes: seq<ProviderVote>, byProvider: map<string, Option<SampleLabel>>) {
    && (forall p :: p in byProvider <==> exists choice :: Voted(votes, p, choice))
    && (forall p, choice :: p in byProvider ==> (byProvider[p] == Some(choice) <==> Holds(votes, p, choice)))
  }

  lemma VotedStep(votes: seq<ProviderVote>, v: ProviderVote, p: string, choice: SampleLabel)
    ensures Voted(votes + [v], p, choice)
       <==> Voted(votes, p, choice) || (KeyOf(v.provider) == p && LabelOf(v.verdict) == Some(choice))
  {
    if Voted(votes, p, choice) {
      var w :| w in votes && KeyOf(w.provider) == p && LabelOf(w.verdict) == Some(choice);
      assert w in votes + [v];
    }
    assert v in votes + [v];
  }

  lemma TalliedSkip(votes: seq<ProviderVote>, v: ProviderVote, byProvider: map<string, Option<SampleLabel>>)
    requires Tallied(votes, byProvider) && LabelOf(v.verdict).None?
    ensures Tallied(votes + [v], byProvider)
  {
    forall p, choice ensures Voted(votes + [v], p, choice) <==> Voted(votes, p, choice) {
      VotedStep(votes, v, p, choice);
    }
    forall p, choice ensures Holds(votes + [v], p, choice) <==> Holds(votes, p, choice) {}
  }

  function Tally(byProvider: map<string, Option<SampleLabel>>, p: string, choice: SampleLabel)
    : map<string, Option<SampleLabel>>
  {
    byProvider[p := if p in byProvider && byProvider[p] != Some(choice) then None else Some(choice)]
  }

  lemma TalliedVote(votes: seq<ProviderVote>, v: ProviderVote, byProvider: map<string, Option<SampleLabel>>,
                    choice: SampleLabel)
    requires Tallied(votes, byProvider) && LabelOf(v.verdict) == Some(choice)
    ensures Tallied(votes + [v], Tally(byProvider, KeyOf(v.provider), choice))
  {
    var key := KeyOf(v.provider);
    var updated := Tally(byProvider, key, choice);
    forall p, l ensures Voted(votes + [v], p, l) <==> Voted(votes, p, l) || (p == key && l == choice) {
      VotedStep(votes, v, p, l);
    }
    forall p ensures p in updated <==> exists l :: Voted(votes + [v], p, l) {
      if p == key { assert Voted(votes + [v], p, choice); }
      if p in byProvider {
        var l :| Voted(votes, p, l);
        assert Voted(votes + [v], p, l);
      }
    }
    forall p, l | p in updated ensures updated[p] == Some(l) <==> Holds(votes + [v], p, l) {
      if p == key {
        KeyTally(votes, v, byProvider, choice, l);
      } else {
        assert Holds(votes + [v], p, l) <==> Holds(votes, p, l);
      }
    }
  }

  lemma KeyTally(votes: seq<ProviderVote>, v: ProviderVote, byProvider: map<string, Option<SampleLabel>>,
                 choice: SampleLabel, l: SampleLabel)
    requires Tallied(votes, byProvider) && LabelOf(v.verdict) == Some(choice)
    requires forall x :: Voted(votes + [v], KeyOf(v.provider), x) <==> Voted(votes, KeyOf(v.provider), x) || x == choice
    ensures Tally(byProvider, KeyOf(v.provider), choice)[KeyOf(v.provider)] == Some(l)
       <==> Holds(votes + [v], KeyOf(v.provider), l)
  {
    var key := KeyOf(v.provider);
    if key in byProvider {
      var first :| Voted(votes, key, first);
      assert Voted(votes + [v], key, first) && Voted(votes + [v], key, choice);
      if byProvider[key] == Some(choice) {
        assert Holds(votes, key, choice);
      } else if Holds(votes + [v], key, l) {
        assert first == l == choice;
        assert Holds(votes, key, choice);
      }
    } else {
      assert forall x :: !Voted(votes, key, x);
    }
  }

  function CountLabel(byProvider: map<string, Option<SampleLabel>>, choice: SampleLabel): nat {
    |set p | p in byProvider && byProvider[p] == Some(choice)|
  }

  lemma CountIsHolders(votes: seq<ProviderVote>, byProvider: map<string, Option<SampleLabel>>, choice: SampleLabel)
    requires Tallied(votes, byProvider)
    ensures CountLabel(byProvider, choice) == |Holders(votes, choice)|
  {
    forall p | Holds(votes, p, choice) ensures p in Providers(votes) && p in byProvider {
      var v :| v in votes && KeyOf(v.provider) == p && LabelOf(v.verdict) == Some(choice);
    }
    assert (set p | p in byProvider && byProvider[p] == Some(choice)) == Holders(votes, choice);
  }

  /** One entry for each name that says one of the three words: its label, or nothing if it says two. */
  ghost predicate TalliedTexts(votes: seq<ProviderVote>, byProvider: map<string, Option<SampleLabel>>) {
    && (forall p :: p in byProvider
               <==> Says(votes, p, "malicious") || Says(votes, p, "benign") || Says(votes, p, "suspicious"))
    && (forall p :: p in byProvider ==> HoldsByText(votes, p, byProvider[p]))
  }

  lemma TalliedByText(votes: seq<ProviderVote>, byProvider: map<string, Option<SampleLabel>>)
    requires Tallied(votes, byProvider)
    ensures TalliedTexts(votes, byProvider)
  {
    hide Tallied, Says;
    forall p
      ensures p in byProvider
         <==> Says(votes, p, "malicious") || Says(votes, p, "benign") || Says(votes, p, "suspicious")
      ensures p in byProvider ==> HoldsByText(votes, p, byProvider[p])
    {
      TalliedName(votes, byProvider, p);
    }
  }

  ghost predicate HoldsByText(votes: seq<ProviderVote>, p: string, value: Option<SampleLabel>) {
    && (value == Some(Malicious) <==> OnlySays(votes, p, "malicious", "benign", "suspicious"))
    && (value == Some(Benign) <==> OnlySays(votes, p, "benign", "malicious", "suspicious"))
    && (value == Some(Suspicious) <==> OnlySays(votes, p, "suspicious", "malicious", "benign"))
  }

  lemma TalliedName(votes: seq<ProviderVote>, byProvider: map<string, Option<SampleLabel>>, p: string)
    requires Tallied(votes, byProvider)
    ensures p in byProvider
       <==> Says(votes, p, "malicious") || Says(votes, p, "benign") || Says(votes, p, "suspicious")
    ensures p in byProvider ==> HoldsByText(votes, p, byProvider[p])
  {
    hide Says, OnlySays, Holds;
    SomeVoteIff(votes, p);
    HoldsIff(votes, p);
  }

  lemma SomeVoteIff(votes: seq<ProviderVote>, p: string)
    ensures (exists choice :: Voted(votes, p, choice))
       <==> Says(votes, p, "malicious") || Says(votes, p, "benign") || Says(votes, p, "suspicious")
  {
    hide Says, LabelOf;
    SaysIff(votes, p);
    if choice :| Voted(votes, p, choice) {
      assert choice == Malicious || choice == Benign || choice == Suspicious;
    }
  }

  lemma HoldsIff(votes: seq<ProviderVote>, p: string)
    ensures Holds(votes, p, Malicious) <==> OnlySays(votes, p, "malicious", "benign", "suspicious")
    ensures Holds(votes, p, Benign) <==> OnlySays(votes, p, "benign", "malicious", "suspicious")
    ensures Holds(votes, p, Suspicious) <==> OnlySays(votes, p, "suspicious", "malicious", "benign")
  {
    hide Says, Voted;
    SaysIff(votes, p);
  }

  method TallyVotes(votes: seq<ProviderVote>) returns (byProvider: map<string, Option<SampleLabel>>)
    ensures Tallied(votes, byProvider) && TalliedTexts(votes, byProvider)
  {
    byProvider := map[];
    for n := 0 to |votes|
      invariant Tallied(votes[..n], byProvider)
    {
      assert votes[..n + 1] == votes[..n] + [votes[n]];
      var choice := LabelOf(votes[n].verdict);
      if choice.None? {
        TalliedSkip(votes[..n], votes[n], byProvider);
      } else {
        TalliedVote(votes[..n], votes[n], byProvider, choice.value);
        byProvider := Tally(byProvider, KeyOf(votes[n].provider), choice.value);
      }
    }
    assert votes[..|votes|] == votes;
    TalliedByText(votes, byProvider);
  }

  /** The candidate labels, filtered in their fixed order. */
  method QualifyingLabels(byProvider: map<string, Option<SampleLabel>>) returns (qualifying: seq<SampleLabel>)
    ensures NoDuplicates(qualifying)
    ensures forall choice :: choice in qualifying <==> CountLabel(byProvider, choice) >= 2
  {
    qualifying := [];
    if CountLabel(byProvider, Malicious) >= 2 {
      qualifying := qualifying + [Malicious];
    }
    if CountLabel(byProvider, Benign) >= 2 {
      qualifying := qualifying + [Benign];
    }
    if CountLabel(byProvider, Suspicious) >= 2 {
      qualifying := qualifying + [Suspicious];
    }
    forall choice ensures choice in qualifying <==> CountLabel(byProvider, choice) >= 2 {
      match choice
      case Benign =>
      case Suspicious =>
      case Malicious =>
    }
  }

  // ---- The same, from the texts ----

  /** Some vote whose provider reads `name`, trimmed and in lower case, has a verdict that reads `word`. */
  ghost predicate Says(votes: seq<ProviderVote>, name: string, word: string) {
    exists v :: v in votes && Lower(Trim(v.provider)) == name && Lower(Trim(v.verdict)) == word
  }

  /** The names that say `word` and neither of the two others. */
  ghost function Backers(votes: seq<ProviderVote>, word: string, other: string, third: string): set<string> {
    set v | v in votes && OnlySays(votes, Lower(Trim(v.provider)), word, other, third) :: Lower(Trim(v.provider))
  }

  ghost predicate OnlySays(votes: seq<ProviderVote>, name: string, word: string, other: string, third: string) {
    Says(votes, name, word) && !Says(votes, name, other) && !Says(votes, name, third)
  }

  ghost predicate TwoSay(votes: seq<ProviderVote>, word: string, other: string, third: string) {
    |Backers(votes, word, other, third)| >= 2
  }

  ghost predicate TwoSayMalicious(votes: seq<ProviderVote>) { TwoSay(votes, "malicious", "benign", "suspicious") }
  ghost predicate TwoSayBenign(votes: seq<ProviderVote>) { TwoSay(votes, "benign", "malicious", "suspicious") }
  ghost predicate TwoSaySuspicious(votes: seq<ProviderVote>) { TwoSay(votes, "suspicious", "malicious", "benign") }

  lemma SaysIff(votes: seq<ProviderVote>, name: string)
    ensures Voted(votes, name, Malicious) <==> Says(votes, name, "malicious")
    ensures Voted(votes, name, Benign) <==> Says(votes, name, "benign")
    ensures Voted(votes, name, Suspicious) <==> Says(votes, name, "suspicious")
  {
    forall v: ProviderVote
      ensures LabelOf(v.verdict) == Some(Malicious) <==> Lower(Trim(v.verdict)) == "malicious"
      ensures LabelOf(v.verdict) == Some(Benign) <==> Lower(Trim(v.verdict)) == "benign"
      ensures LabelOf(v.verdict) == Some(Suspicious) <==> Lower(Trim(v.verdict)) == "suspicious"
    {
      WordsDiffer();
    }
  }

  lemma WordsDiffer()
    ensures "malicious" != "benign" && "benign" != "suspicious" && "malicious" != "suspicious"
  {
    assert "malicious"[0] == 'm' && "benign"[0] == 'b' && "suspicious"[0] == 's';
  }

  lemma HoldersAreBackers(votes: seq<ProviderVote>)
    ensures Holders(votes, Malicious) == Backers(votes, "malicious", "benign", "suspicious")
    ensures Holders(votes, Benign) == Backers(votes, "benign", "malicious", "suspicious")
    ensures Holders(votes, Suspicious) == Backers(votes, "suspicious", "malicious", "benign")
  {
    forall name
      ensures Holds(votes, name, Malicious) <==> OnlySays(votes, name, "malicious", "benign", "suspicious")
      ensures Holds(votes, name, Benign) <==> OnlySays(votes, name, "benign", "malicious", "suspicious")
      ensures Holds(votes, name, Suspicious) <==> OnlySays(votes, name, "suspicious", "malicious", "benign")
    {
      HoldsIff(votes, name);
    }
  }

  /** A label is returned exactly when two names say its word, and neither of the others, and the same
      does not hold for another label. */
  method LlmConsensus(votes: seq<ProviderVote>) returns (consensus: Option<SampleLabel>)
    ensures forall choice :: consensus == Some(choice)
              <==> Qualifies(votes, choice) && forall other :: Qualifies(votes, other) ==> other == choice
    ensures consensus == Some(Malicious)
       <==> TwoSayMalicious(votes) && !TwoSayBenign(votes) && !TwoSaySuspicious(votes)
    ensures consensus == Some(Benign)
       <==> TwoSayBenign(votes) && !TwoSayMalicious(votes) && !TwoSaySuspicious(votes)
    ensures consensus == Some(Suspicious)
       <==> TwoSaySuspicious(votes) && !TwoSayMalicious(votes) && !TwoSayBenign(votes)
  {
    hide Tallied, TalliedTexts, Qualifies, TwoSayMalicious, TwoSayBenign, TwoSaySuspicious;
    var byProvider := TallyVotes(votes);
    consensus := OnlyQualifying(votes, byProvider);
    QualifiesTexts(votes);
  }

  lemma QualifiesTexts(votes: seq<ProviderVote>)
    ensures Qualifies(votes, Malicious) <==> TwoSayMalicious(votes)
    ensures Qualifies(votes, Benign) <==> TwoSayBenign(votes)
    ensures Qualifies(votes, Suspicious) <==> TwoSaySuspicious(votes)
  {
    HoldersAreBackers(votes);
  }

  method OnlyQualifying(votes: seq<ProviderVote>, byProvider: map<string, Option<SampleLabel>>)
    returns (consensus: Option<SampleLabel>)
    requires Tallied(votes, byProvider)
    ensures forall choice :: consensus == Some(choice)
              <==> Qualifies(votes, choice) && forall other :: Qualifies(votes, other) ==> other == choice
  {
    var qualifying := QualifyingLabels(byProvider);
    forall choice ensures choice in qualifying <==> Qualifies(votes, choice) {
      CountIsHolders(votes, byProvider, choice);
    }
    if |qualifying| == 1 {
      consensus := Some(qualifying[0]);
    } else {
      consensus := None;
      if |qualifying| >= 2 {
        assert qualifying[0] in qualifying && qualifying[1] in qualifying;
      }
    }
  }

  // ---- The result depends only on which normalised votes occur ----

  /** Two cohorts with the same (provider, label) pairs, in any order and with any repetition. */
  ghost predicate SameVotes(a: seq<ProviderVote>, b: seq<ProviderVote>) {
    forall p, choice :: Voted(a, p, choice) <==> Voted(b, p, choice)
  }

  lemma SameVotesSameHolders(a: seq<ProviderVote>, b: seq<ProviderVote>, choice: SampleLabel)
    requires SameVotes(a, b)
    ensures Holders(a, choice) == Holders(b, choice)
  {
    forall p ensures p in Holders(a, choice) <==> p in Holders(b, choice) {
      assert Holds(a, p, choice) <==> Holds(b, p, choice);
      if Voted(a, p, choice) {
        var v :| v in a && KeyOf(v.provider) == p && LabelOf(v.verdict) == Some(choice);
        var w :| w in b && KeyOf(w.provider) == p && LabelOf(w.verdict) == Some(choice);
      }
    }
  }

  /** Spelling, order and repetition of votes do not matter: equal normalised votes qualify equal labels. */
  lemma ConsensusDependsOnVoteSet(a: seq<ProviderVote>, b: seq<ProviderVote>, choice: SampleLabel)
    requires SameVotes(a, b)
    ensures Qualifies(a, choice) <==> Qualifies(b, choice)
  {
    SameVotesSameHolders(a, b, choice);
  }

  lemma RepeatedVoteIsSame(votes: seq<ProviderVote>, v: ProviderVote)
    requires v in votes
    ensures SameVotes(votes + [v], votes)
  {
    forall p, choice ensures Voted(votes + [v], p, choice) <==> Voted(votes, p, choice) {
      VotedStep(votes, v, p, choice);
    }
  }

  lemma PermutedVotesAreSame(a: seq<ProviderVote>, b: seq<ProviderVote>)
    requires multiset(a) == multiset(b)
    ensures SameVotes(a, b)
  {
    SameMembers(a, b);
  }

  lemma HoldersDisjoint(votes: seq<ProviderVote>, a: SampleLabel, b: SampleLabel)
    requires a != b
    ensures |Holders(votes, a)| + |Holders(votes, b)| <= |Providers(votes)|
  {
    var x, y := Holders(votes, a), Holders(votes, b);
    assert x !! y;
    assert |x + y| == |x| + |y|;
    SubsetSize(x + y, Providers(votes));
  }

  lemma {:induction false} SubsetSize<T>(a: set<T>, b: set<T>)
    requires a <= b
    ensures |a| <= |b|
  {
    if a != {} {
      var x :| x in a;
      SubsetSize(a - {x}, b - {x});
    }
  }

  /** With at most three distinct providers two labels can never both qualify. */
  lemma ThreeProvidersNeverTie(votes: seq<ProviderVote>, a: SampleLabel, b: SampleLabel)
    requires |Providers(votes)| <= 3 && Qualifies(votes, a) && Qualifies(votes, b)
    ensures a == b
  {
    if a != b {
      HoldersDisjoint(votes, a, b);
    }
  }
}
