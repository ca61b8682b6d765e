/** Candidate retrieval of the conversation service: the staking-phrase
    test, the adjusted-similarity ranking of the general, agent and basic
    queries with their 15-row cap, the agent's address hints and the
    combined rows of the command-reference mode. The store itself is an
    input: `matches` are the team's `adev` rows with their distance. */
module Retrieval {
  import opened Wrappers
  import opened Text
  import opened Types
  import opened Sorting
  import opened CacheKeys

  /** The first block of `STAKING_PATTERNS` (staking and running an agent),
      before the `%…%` wrapping, verbatim and in order. */
  const OperatorPhrases: seq<string> := [
    "stake olas", "staking olas", "how to stake", "easiest way to stake", "want to stake",
    "can i stake", "help me stake", "guide to staking", "staking guide", "stake my olas",
    "run olas", "running olas", "how to run", "to run", "easiest way to run", "want to run",
    "can i run", "help me run", "guide to running", "run my own", "running guide", "run agent",
    "running agent", "run an agent", "start agent", "starting agent", "deploy agent",
    "deploying agent", "non technical"]

  /** The second block of `STAKING_PATTERNS` (beginner wording). */
  const BeginnerPhrases: seq<string> := [
    "easy", "simple way", "beginner", "beginner friendly", "don't know how to code",
    "no coding", "without coding", "not a developer", "not technical", "simple guide",
    "step by step", "how can i", "what's the easiest", "what is the easiest", "best way to",
    "quickest way to", "help with", "where do i start", "getting started", "make my own",
    "make my own agent", "set up", "set up agent", "set up my own"]

  /** `STAKING_PATTERNS` before the `%…%` wrapping. */
  const StakingPhrases: seq<string> := OperatorPhrases + BeginnerPhrases

  /** `%<phrase>%`, a SQL `LIKE` pattern. */
  function LikePattern(phrase: string): string {
    "%" + phrase + "%"
  }

  /** `STAKING_PATTERNS`. */
  function StakingPatterns(): (r: seq<string>)
    ensures |r| == |StakingPhrases|
    ensures forall i :: 0 <= i < |r| ==> r[i] == LikePattern(StakingPhrases[i])
  {
    seq(|StakingPhrases|, i requires 0 <= i < |StakingPhrases| => LikePattern(StakingPhrases[i]))
  }

  /** `s.replace(/%/g, "")`. */
  function RemovePercent(s: string): (r: string)
  {
    if s == [] then [] else (if s[0] == '%' then [] else [s[0]]) + RemovePercent(s[1..])
  }

  lemma {:induction false} RemovePercentNoop(s: string)
    requires '%' !in s
    ensures RemovePercent(s) == s
  {
    if s != [] {
      RemovePercentNoop(s[1..]);
      assert s == [s[0]] + s[1..];
    }
  }

  lemma {:induction false} RemovePercentAppend(a: string, b: string)
    ensures RemovePercent(a + b) == RemovePercent(a) + RemovePercent(b)
  {
    if a == [] {
      assert a + b == b;
    } else {
      assert (a + b)[1..] == a[1..] + b;
      RemovePercentAppend(a[1..], b);
    }
  }

  lemma OperatorNoPercent()
    ensures forall k | 0 <= k < |OperatorPhrases| :: '%' !in OperatorPhrases[k]
  {
    OperatorNoPercentFrom(0);
    OperatorNoPercentFrom(15);
  }

  lemma OperatorNoPercentFrom(start: nat)
    requires start == 0 || start == 15
    ensures forall k | start <= k < |OperatorPhrases| && k < start + 15 :: '%' !in OperatorPhrases[k]
  {
  }

  lemma BeginnerNoPercent()
    ensures forall k | 0 <= k < |BeginnerPhrases| :: '%' !in BeginnerPhrases[k]
  {
    BeginnerNoPercentFrom(0);
    BeginnerNoPercentFrom(12);
  }

  lemma BeginnerNoPercentFrom(start: nat)
    requires start == 0 || start == 12
    ensures forall k | start <= k < |BeginnerPhrases| && k < start + 12 :: '%' !in BeginnerPhrases[k]
  {
  }

  lemma NoPercentAt(i: nat)
    requires i < |StakingPhrases|
    ensures '%' !in StakingPhrases[i]
  {
    if i < |OperatorPhrases| {
      OperatorNoPercent();
    } else {
      BeginnerNoPercent();
    }
  }

  lemma PhrasesHaveNoPercent()
    ensures forall i :: 0 <= i < |StakingPhrases| ==> '%' !in StakingPhrases[i]
  {
    forall i | 0 <= i < |StakingPhrases| ensures '%' !in StakingPhrases[i] {
      NoPercentAt(i);
    }
  }

  /** Stripping the `%` from a pattern gives back its phrase. */
  lemma StripPattern(i: nat)
    requires i < |StakingPhrases|
    ensures RemovePercent(StakingPatterns()[i]) == StakingPhrases[i]
  {
    var p := StakingPhrases[i];
    PhrasesHaveNoPercent();
    RemovePercentNoop(p);
    RemovePercentAppend("%", p);
    RemovePercentAppend("%" + p, "%");
  }

  /** `patterns.some(pattern => text.includes(pattern.replace(/%/g, "")))`. */
  function SomeIncluded(text: string, patterns: seq<string>): bool
  {
    patterns != [] && (Contains(text, RemovePercent(patterns[0])) || SomeIncluded(text, patterns[1..]))
  }

  /** `hasStakingPattern` of `fetchCodeEmbeddingsGeneral`. */
  function HasStakingPattern(question: string): bool {
    SomeIncluded(ToLower(question), StakingPatterns())
  }

  lemma {:induction false} SomeIncludedIff(text: string, patterns: seq<string>)
    ensures SomeIncluded(text, patterns)
            <==> exists i :: 0 <= i < |patterns| && Contains(text, RemovePercent(patterns[i]))
  {
    if patterns != [] {
      SomeIncludedIff(text, patterns[1..]);
      if Contains(text, RemovePercent(patterns[0])) {
      } else {
        assert forall i :: 1 <= i < |patterns| ==> patterns[i] == patterns[1..][i - 1];
      }
    }
  }

  /** A question matches exactly when one of the fixed phrases occurs in its
      lower-cased text. */
  lemma HasStakingPatternIff(question: string)
    ensures HasStakingPattern(question)
            <==> exists i :: 0 <= i < |StakingPhrases| && exists k :: OccursAt(ToLower(question), StakingPhrases[i], k)
  {
    var text := ToLower(question);
    var pats := StakingPatterns();
    SomeIncludedIff(text, pats);
    forall i | 0 <= i < |StakingPhrases|
      ensures Contains(text, RemovePercent(pats[i])) <==> exists k :: OccursAt(text, StakingPhrases[i], k)
    {
      StripPattern(i);
      ContainsIffOccurs(text, StakingPhrases[i]);
    }
  }

  /** An occurrence in `%x%` of a piece without `%` is an occurrence in `x`. */
  lemma ContainsPadded(x: string, p: string)
    requires '%' !in p
    ensures Contains("%" + x + "%", p) <==> Contains(x, p)
  {
    var s := "%" + x + "%";
    ContainsIffOccurs(s, p);
    ContainsIffOccurs(x, p);
    if Contains(x, p) {
      var k :| OccursAt(x, p, k);
      OccursPadded(x, p, k);
    }
    if Contains(s, p) {
      var k :| OccursAt(s, p, k);
      OccursUnpadded(x, p, k);
    }
  }

  lemma OccursPadded(x: string, p: string, k: int)
    requires OccursAt(x, p, k)
    ensures OccursAt("%" + x + "%", p, k + 1)
  {
    var s := "%" + x + "%";
    assert s[k + 1..k + 1 + |p|] == x[k..k + |p|];
  }

  lemma OccursUnpadded(x: string, p: string, k: int)
    requires '%' !in p && OccursAt("%" + x + "%", p, k)
    ensures exists j :: OccursAt(x, p, j)
  {
    var s := "%" + x + "%";
    if |p| == 0 {
      assert OccursAt(x, p, 0);
    } else {
      assert s[k] == p[0];
      assert s[k + |p| - 1] == p[|p| - 1];
      assert 1 <= k && k + |p| <= |s| - 1;
      assert x[k - 1..k - 1 + |p|] == s[k..k + |p|];
      assert OccursAt(x, p, k - 1);
    }
  }

  /** `LOWER($3) LIKE ANY(SELECT UNNEST($4::text[]))` with `$3 = %<lowered
      question>%` and `$4 = STAKING_PATTERNS`. */
  function SqlStakingCondition(question: string): bool {
    SomeIncluded(ToLower("%" + ToLower(question) + "%"), StakingPatterns())
  }

  /** The SQL-side test agrees with the JavaScript-side one, so whenever the
      0.3 rule is in the query its second half holds. */
  lemma SqlStakingAgrees(question: string)
    ensures SqlStakingCondition(question) == HasStakingPattern(question)
  {
    var lq := ToLower(question);
    var padded := "%" + lq + "%";
    assert ToLower(padded) == padded;
    var pats := StakingPatterns();
    SomeIncludedIff(padded, pats);
    SomeIncludedIff(lq, pats);
    PhrasesHaveNoPercent();
    forall i | 0 <= i < |pats| ensures Contains(padded, RemovePercent(pats[i])) == Contains(lq, RemovePercent(pats[i])) {
      StripPattern(i);
      ContainsPadded(lq, StakingPhrases[i]);
    }
  }

  /** The multiplier of the `CASE` of the general query (`stakingRule`: the
      0.3 branch is part of the query) and of the agent and basic queries
      (`stakingRule` false); the first matching branch wins. */
  function Multiplier(row: Row, question: string, stakingRule: bool): real
  {
    var lq := ToLower(question);
    if stakingRule && Contains(ToLower(row.content), "pearl") && SqlStakingCondition(question) then 0.3
    else if Contains(ToLower(row.content), lq) then 0.7
    else if Contains(ToLower(row.name), lq) then 0.8
    else 1.0
  }

  /** `adjusted_similarity`. */
  function Adjusted(row: Row, question: string, stakingRule: bool): real {
    row.similarity * Multiplier(row, question, stakingRule)
  }

  /** The precedence of the `CASE`, in plain terms: 0.3 for a `pearl` row
      when the question matched a staking phrase, else 0.7 when the content
      holds the question, else 0.8 when the name does, else 1. */
  lemma MultiplierPrecedence(row: Row, question: string)
    ensures var m := Multiplier(row, question, HasStakingPattern(question));
      var lq := ToLower(question);
      var pearl := HasStakingPattern(question) && Contains(ToLower(row.content), "pearl");
      (pearl ==> m == 0.3)
      && (!pearl && Contains(ToLower(row.content), lq) ==> m == 0.7)
      && (!pearl && !Contains(ToLower(row.content), lq) && Contains(ToLower(row.name), lq) ==> m == 0.8)
      && (!pearl && !Contains(ToLower(row.content), lq) && !Contains(ToLower(row.name), lq) ==> m == 1.0)
  {
    SqlStakingAgrees(question);
  }

  const SimilarityCeiling: real := 0.8
  const CandidateCap: nat := 15

  /** The ranked part of a query: order by adjusted similarity, keep 15. */
  function Rank(eligible: seq<Row>, question: string, stakingRule: bool): seq<Row> {
    Take(SortBy(eligible, (r: Row) => Adjusted(r, question, stakingRule)), CandidateCap)
  }

  /** What the ranked queries promise: at most 15 rows, all eligible, in
      ascending adjusted similarity, and none left out ranks better than one
      kept. */
  lemma RankSpec(eligible: seq<Row>, question: string, stakingRule: bool)
    ensures var r := Rank(eligible, question, stakingRule);
      var key := (x: Row) => Adjusted(x, question, stakingRule);
      |r| <= CandidateCap
      && |r| == (if |eligible| < CandidateCap then |eligible| else CandidateCap)
      && multiset(r) <= multiset(eligible)
      && SortedBy(r, key)
      && forall x, y :: x in r && y in multiset(eligible) - multiset(r) ==> key(x) <= key(y)
  {
    var key := (x: Row) => Adjusted(x, question, stakingRule);
    var sorted := SortBy(eligible, key);
    SortBySorted(eligible, key);
    TakeKeepsSmallest(sorted, key, CandidateCap);
  }

  function CloseEnough(rows: seq<Row>): (r: seq<Row>)
    ensures forall x :: x in r ==> x.similarity < SimilarityCeiling
  {
    Filter(rows, (x: Row) => x.similarity < SimilarityCeiling)
  }

  /** `fetchCodeEmbeddingsGeneral`. */
  function GeneralCandidates(matches: seq<Row>, question: string): seq<Row> {
    Rank(CloseEnough(matches), question, HasStakingPattern(question))
  }

  /** `fetchCodeEmbeddingsBasic`, the agent query's fallback. */
  function BasicCandidates(matches: seq<Row>, question: string): seq<Row> {
    Rank(CloseEnough(matches), question, false)
  }

  /** A transaction of the agent: its `to` and its logs' `address`es. */
  datatype AgentTx = AgentTx(to: Option<string>, logAddresses: seq<Option<string>>)

  /** The lower-cased addresses of a list of logs, skipping falsy ones. */
  function LogAddresses(logs: seq<Option<string>>): set<string>
  {
    if logs == [] then {}
    else LogAddresses(logs[..|logs| - 1])
         + (var a := logs[|logs| - 1]; if a.Some? && a.value != "" then {ToLower(a.value)} else {})
  }

  function TxAddresses(tx: AgentTx): set<string> {
    (if tx.to.Some? && tx.to.value != "" then {ToLower(tx.to.value)} else {})
    + LogAddresses(tx.logAddresses)
  }

  /** The `addresses` set the agent query matches names against. */
  function AddressSet(txs: seq<AgentTx>): set<string>
  {
    if txs == [] then {} else AddressSet(txs[..|txs| - 1]) + TxAddresses(txs[|txs| - 1])
  }

  lemma {:induction false} LogAddressesIff(logs: seq<Option<string>>, a: string)
    ensures a in LogAddresses(logs)
            <==> exists j :: 0 <= j < |logs| && logs[j].Some? && logs[j].value != "" && a == ToLower(logs[j].value)
  {
    if logs != [] {
      var init := logs[..|logs| - 1];
      LogAddressesIff(init, a);
      assert forall j :: 0 <= j < |init| ==> init[j] == logs[j];
    }
  }

  /** An address is collected exactly when some transaction has it as its
      `to` or as a log's `address` (case ignored). */
  lemma {:induction false} AddressSetIff(txs: seq<AgentTx>, a: string)
    ensures a in AddressSet(txs) <==> exists i :: 0 <= i < |txs| && a in TxAddresses(txs[i])
  {
    if txs != [] {
      var init := txs[..|txs| - 1];
      AddressSetIff(init, a);
      assert forall i :: 0 <= i < |init| ==> init[i] == txs[i];
    }
  }

  /** The `forEach` over the transactions that fills `addresses`. */
  method CollectAddresses(txs: seq<AgentTx>) returns (addresses: set<string>)
    ensures addresses == AddressSet(txs)
    ensures forall a :: a in addresses ==> a == ToLower(a)
  {
    addresses := {};
    var i := 0;
    while i < |txs|
      invariant 0 <= i <= |txs|
      invariant addresses == AddressSet(txs[..i])
    {
      var tx := txs[i];
      if tx.to.Some? && tx.to.value != "" {
        addresses := addresses + {ToLower(tx.to.value)};
      }
      addresses := AddLogAddresses(addresses, tx.logAddresses);
      assert txs[..i + 1][..i] == txs[..i];
      i := i + 1;
    }
    assert txs[..i] == txs;
    AddressesLowered(txs);
  }

  /** The inner `forEach` over one transaction's logs. */
  method AddLogAddresses(before: set<string>, logs: seq<Option<string>>) returns (addresses: set<string>)
    ensures addresses == before + LogAddresses(logs)
  {
    addresses := before;
    for j := 0 to |logs|
      invariant addresses == before + LogAddresses(logs[..j])
    {
      var log := logs[j];
      if log.Some? && log.value != "" {
        addresses := addresses + {ToLower(log.value)};
      }
      assert logs[..j + 1][..j] == logs[..j];
    }
    assert logs[..|logs|] == logs;
  }

  lemma AddressesLowered(txs: seq<AgentTx>)
    ensures forall a :: a in AddressSet(txs) ==> a == ToLower(a)
  {
    forall a | a in AddressSet(txs) ensures a == ToLower(a) {
      AddressSetIff(txs, a);
      var i :| 0 <= i < |txs| && a in TxAddresses(txs[i]);
      if !(txs[i].to.Some? && txs[i].to.value != "" && a == ToLower(txs[i].to.value)) {
        LogAddressesIff(txs[i].logAddresses, a);
      }
    }
  }

  /** The inner filter of `fetchCodeEmbeddingsAgent`: an id starting with
      the agent id, or a name equal to a collected address. */
  function AgentMatches(matches: seq<Row>, agentId: string, addresses: set<string>): seq<Row> {
    Filter(matches, (x: Row) => StartsWith(ToLower(x.id), ToLower(agentId)) || ToLower(x.name) in addresses)
  }

  /** `fetchCodeEmbeddingsAgent`: no agent id gives no rows; a failing
      query falls back to the basic query. Otherwise every row is one of the
      team's rows whose id starts with the agent id or whose name is one of
      the agent's addresses, and the rows are the best of those by adjusted
      similarity (without the staking branch), at most 15 of them. */
  function AgentCandidates(matches: seq<Row>, question: string, agentId: Option<string>,
                           txs: seq<AgentTx>, queryFails: bool): (r: seq<Row>)
    ensures OrElse(agentId, "") == "" ==> r == []
    ensures OrElse(agentId, "") != "" && queryFails ==> r == BasicCandidates(matches, question)
    ensures |r| <= CandidateCap
    ensures OrElse(agentId, "") != "" && !queryFails ==>
              forall x :: x in r ==>
                x in matches
                && (StartsWith(ToLower(x.id), ToLower(agentId.value)) || ToLower(x.name) in AddressSet(txs))
    ensures OrElse(agentId, "") != "" && !queryFails ==>
              var e := AgentMatches(matches, agentId.value, AddressSet(txs));
              var key := (x: Row) => Adjusted(x, question, false);
              |r| == (if |e| < CandidateCap then |e| else CandidateCap)
              && multiset(r) <= multiset(e)
              && SortedBy(r, key)
              && forall x, y :: x in r && y in multiset(e) - multiset(r) ==> key(x) <= key(y)
  {
    if OrElse(agentId, "") == "" then []
    else if queryFails then
      RankSpec(CloseEnough(matches), question, false);
      BasicCandidates(matches, question)
    else
      var e := AgentMatches(matches, agentId.value, AddressSet(txs));
      RankSpec(e, question, false);
      AgentRowsMatch(matches, agentId.value, AddressSet(txs), Rank(e, question, false));
      Rank(e, question, false)
  }

  /** Rows drawn from the agent filter are team rows that pass it. */
  lemma AgentRowsMatch(matches: seq<Row>, agentId: string, addresses: set<string>, r: seq<Row>)
    requires multiset(r) <= multiset(AgentMatches(matches, agentId, addresses))
    ensures forall x :: x in r ==>
              x in matches && (StartsWith(ToLower(x.id), ToLower(agentId)) || ToLower(x.name) in addresses)
  {
    forall x | x in r
      ensures x in matches && (StartsWith(ToLower(x.id), ToLower(agentId)) || ToLower(x.name) in addresses)
    {
      assert x in multiset(r);
      assert x in AgentMatches(matches, agentId, addresses);
    }
  }

  function MarkCritical(rows: seq<Row>, critical: bool): (r: seq<Row>)
    ensures |r| == |rows|
    ensures forall i :: 0 <= i < |r| ==> r[i] == rows[i].(isCritical := critical)
  {
    seq(|rows|, i requires 0 <= i < |rows| => rows[i].(isCritical := critical))
  }

  /** `fetchCodeEmbeddingsCode`: a non-empty cached list (outside the local
      deployment) is used as it is; otherwise the critical documents
      followed by the ranked `adev` rows, cached only when there are any. */
  function CodeCandidates(deployment: string, teamName: string, read: CacheRead<seq<Row>>,
                          criticalDocs: seq<Row>, adevDocs: seq<Row>): (r: (seq<Row>, Option<CacheWrite>))
    ensures deployment != "local" && read.Hit? && |read.value| > 0 ==> r == (read.value, None)
    ensures !(deployment != "local" && read.Hit? && |read.value| > 0) ==>
      r.0 == MarkCritical(criticalDocs, true) + MarkCritical(adevDocs, false)
      && (r.1.Some? <==> |r.0| > 0 && deployment != "local")
      && (r.1.Some? ==> r.1.value == CacheWrite(CommandsKey(teamName), RowsValue(r.0), CommandsCacheTtl))
  {
    if deployment != "local" && read.Hit? && |read.value| > 0 then (read.value, None)
    else
      var combined := MarkCritical(criticalDocs, true) + MarkCritical(adevDocs, false);
      if |combined| > 0 && deployment != "local" then
        (combined, Some(CacheWrite(CommandsKey(teamName), RowsValue(combined), CommandsCacheTtl)))
      else (combined, None)
  }
}
