/** Bandwidth rules and the admission table (rust/crates/thttpd-core/src/throttle.rs). */
module Throttle {
  import opened Common
  import Glob

  const THROTTLE_TIME := 2
  const MAX_THROTTLE_NUMS := 10
  const CGI_BYTECOUNT := 25000
  const NOLIMIT := -1

  datatype Rule = Rule(
    pattern: seq<Byte>,
    maxLimit: int,
    minLimit: int,
    rate: int,
    bytesSinceAvg: int,
    numSending: int)

  datatype Decision = Unlimited | Allow(tnums: seq<nat>, maxLimit: int, minLimit: int) | Reject

  /** `i64` division, which truncates toward zero, as repeated subtraction. */
  function Quot(a: int, b: int): (q: int)
    requires b > 0
    ensures a >= 0 ==> 0 <= q <= a
    decreases a < 0, if a < 0 then -a else a
  {
    if a < 0 then -Quot(-a, b) else if a < b then 0 else 1 + Quot(a - b, b)
  }

  lemma {:induction false} QuotIsDivision(a: int, b: int)
    requires a >= 0 && b > 0
    ensures b * Quot(a, b) <= a < b * Quot(a, b) + b
  {
    if a >= b {
      QuotIsDivision(a - b, b);
      assert b * Quot(a, b) == b * Quot(a - b, b) + b;
    }
  }

  /** What rule `t` gets when `d` is added once per listing among the first `n`. */
  function Added(tnums: seq<nat>, t: nat, d: int, n: nat): int
    requires n <= |tnums|
  {
    if n == 0 then 0 else Added(tnums, t, d, n - 1) + (if tnums[n - 1] == t then d else 0)
  }

  lemma {:induction false} AddedFrame(tnums: seq<nat>, longer: seq<nat>, t: nat, d: int, n: nat)
    requires n <= |tnums| && tnums <= longer
    ensures Added(tnums, t, d, n) == Added(longer, t, d, n)
    ensures Added(tnums, t, -d, n) == -Added(tnums, t, d, n)
  {
    if n > 0 {
      AddedFrame(tnums, longer, t, d, n - 1);
    }
  }

  lemma {:induction false} NotListed(tnums: seq<nat>, t: nat, d: int, n: nat)
    requires n <= |tnums| && t !in tnums[..n]
    ensures Added(tnums, t, d, n) == 0
  {
    if n > 0 {
      NotListed(tnums, t, d, n - 1);
    }
  }

  predicate Distinct(tnums: seq<nat>) {
    forall i, j :: 0 <= i < j < |tnums| ==> tnums[i] != tnums[j]
  }

  predicate Within(tnums: seq<nat>, n: nat) {
    forall i :: 0 <= i < |tnums| ==> tnums[i] < n
  }

  lemma {:induction false} DistinctAddedOnce(tnums: seq<nat>, t: nat, d: int, n: nat)
    requires Distinct(tnums) && n <= |tnums|
    ensures Added(tnums, t, d, n) == if t in tnums[..n] then d else 0
  {
    if n > 0 {
      DistinctAddedOnce(tnums, t, d, n - 1);
    }
  }

  /** The rules with `d` added to the sender count once per listing. */
  function Bump(rules: seq<Rule>, tnums: seq<nat>, d: int): (out: seq<Rule>)
    ensures |out| == |rules|
  {
    seq(|rules|, i requires 0 <= i < |rules| =>
      rules[i].(numSending := rules[i].numSending + Added(tnums, i, d, |tnums|)))
  }

  /** The rules with `d` bytes charged once per listing. */
  function Charge(rules: seq<Rule>, tnums: seq<nat>, d: int): (out: seq<Rule>)
    ensures |out| == |rules|
  {
    seq(|rules|, i requires 0 <= i < |rules| =>
      rules[i].(bytesSinceAvg := rules[i].bytesSinceAvg + Added(tnums, i, d, |tnums|)))
  }

  /** Giving back what was taken restores the table. */
  lemma BumpUndone(rules: seq<Rule>, tnums: seq<nat>)
    ensures Bump(Bump(rules, tnums, 1), tnums, -1) == rules
  {
    forall i | 0 <= i < |rules| ensures Bump(Bump(rules, tnums, 1), tnums, -1)[i] == rules[i] {
      AddedFrame(tnums, tnums, i, 1, |tnums|);
    }
  }

  /** With distinct listings each listed rule is touched once and no other rule is. */
  lemma DistinctEffects(rules: seq<Rule>, tnums: seq<nat>, d: int, r: nat)
    requires Distinct(tnums) && r < |rules|
    ensures Bump(rules, tnums, d)[r] ==
      if r in tnums then rules[r].(numSending := rules[r].numSending + d) else rules[r]
    ensures Charge(rules, tnums, d)[r] ==
      if r in tnums then rules[r].(bytesSinceAvg := rules[r].bytesSinceAvg + d) else rules[r]
  {
    DistinctAddedOnce(tnums, r, d, |tnums|);
    assert tnums[..|tnums|] == tnums;
  }

  /** Indexes of the first ten rules below `n` whose pattern matches. */
  ghost function MatchedUpTo(rules: seq<Rule>, path: seq<Byte>, n: nat): (tnums: seq<nat>)
    requires n <= |rules|
    ensures |tnums| <= MAX_THROTTLE_NUMS
    ensures forall i :: 0 <= i < |tnums| ==> tnums[i] < n
    ensures forall i, j :: 0 <= i < j < |tnums| ==> tnums[i] < tnums[j]
  {
    if n == 0 then []
    else
      var before := MatchedUpTo(rules, path, n - 1);
      if |before| < MAX_THROTTLE_NUMS && Glob.Matches(rules[n - 1].pattern, path) then before + [n - 1] else before
  }

  ghost function Matched(rules: seq<Rule>, path: seq<Byte>): (tnums: seq<nat>)
    ensures Within(tnums, |rules|) && Distinct(tnums)
  {
    MatchedUpTo(rules, path, |rules|)
  }

  /** The list is built left to right: later rules only extend it, and a full list stays. */
  lemma {:induction false} MatchedExtends(rules: seq<Rule>, path: seq<Byte>, n: nat, m: nat)
    requires n <= m <= |rules|
    ensures MatchedUpTo(rules, path, n) <= MatchedUpTo(rules, path, m)
    ensures |MatchedUpTo(rules, path, n)| == MAX_THROTTLE_NUMS ==>
      MatchedUpTo(rules, path, m) == MatchedUpTo(rules, path, n)
  {
    if n < m {
      MatchedExtends(rules, path, n, m - 1);
    }
  }

  /** Every listed rule matches. */
  lemma {:induction false} MatchedAreMatches(rules: seq<Rule>, path: seq<Byte>, n: nat, i: nat)
    requires n <= |rules| && i < |MatchedUpTo(rules, path, n)|
    ensures Glob.Matches(rules[MatchedUpTo(rules, path, n)[i]].pattern, path)
    decreases n
  {
    if i < |MatchedUpTo(rules, path, n - 1)| {
      MatchedAreMatches(rules, path, n - 1, i);
    }
  }

  /** A matching rule is left out only when ten earlier rules matched. */
  lemma MatchedIsComplete(rules: seq<Rule>, path: seq<Byte>, t: nat)
    requires t < |rules| && Glob.Matches(rules[t].pattern, path)
    ensures t in Matched(rules, path) || |MatchedUpTo(rules, path, t)| == 10
  {
    MatchedExtends(rules, path, t + 1, |rules|);
    var upTo := MatchedUpTo(rules, path, t + 1);
    if |MatchedUpTo(rules, path, t)| < MAX_THROTTLE_NUMS {
      assert upTo[|upTo| - 1] == t;
    }
  }

  /** The share of one rule that each of its senders gets. */
  function Share(rule: Rule): int {
    Quot(rule.maxLimit, Max(1, rule.numSending))
  }

  function Shares(rules: seq<Rule>, tnums: seq<nat>): (shares: seq<int>)
    requires Within(tnums, |rules|)
    ensures |shares| == |tnums|
  {
    seq(|tnums|, i requires 0 <= i < |tnums| => Share(rules[tnums[i]]))
  }

  function Floors(rules: seq<Rule>, tnums: seq<nat>): (floors: seq<int>)
    requires Within(tnums, |rules|)
    ensures |floors| == |tnums|
  {
    seq(|tnums|, i requires 0 <= i < |tnums| => rules[tnums[i]].minLimit)
  }

  /** Folding with -1 standing for "nothing seen yet", as the source does. */
  function FoldMin(before: int, l: int): int {
    if before == NOLIMIT then l else Min(before, l)
  }

  function FoldMax(before: int, l: int): int {
    if before == NOLIMIT then l else Max(before, l)
  }

  function RunningMin(xs: seq<int>): int {
    if xs == [] then NOLIMIT else FoldMin(RunningMin(xs[..|xs| - 1]), xs[|xs| - 1])
  }

  function RunningMax(xs: seq<int>): int {
    if xs == [] then NOLIMIT else FoldMax(RunningMax(xs[..|xs| - 1]), xs[|xs| - 1])
  }

  /** `fair_share_for`: what a connection listed on these rules may send per second. */
  function FairShare(rules: seq<Rule>, tnums: seq<nat>): int
    requires Within(tnums, |rules|)
  {
    RunningMin(Shares(rules, tnums))
  }

  /** The listings that name a rule. */
  function Existing(tnums: seq<nat>, n: nat): (out: seq<nat>)
    ensures Within(out, n) && (Within(tnums, n) ==> out == tnums)
  {
    if tnums == [] then []
    else
      var before, last := Existing(tnums[..|tnums| - 1], n), tnums[|tnums| - 1];
      if last < n then before + [last] else before
  }

  lemma FairShareAppends(rules: seq<Rule>, tnums: seq<nat>, t: nat)
    requires Within(tnums, |rules|) && t < |rules|
    ensures Within(tnums + [t], |rules|)
    ensures FairShare(rules, tnums + [t]) == FoldMin(FairShare(rules, tnums), Share(rules[t]))
  {
    var shares := Shares(rules, tnums + [t]);
    assert shares[..|tnums|] == Shares(rules, tnums);
  }

  lemma {:induction false} RunningMinIsMinimum(xs: seq<int>)
    requires xs != [] && forall i :: 0 <= i < |xs| ==> xs[i] >= 0
    ensures forall i :: 0 <= i < |xs| ==> 0 <= RunningMin(xs) <= xs[i]
    ensures RunningMin(xs) in xs
  {
    var init := xs[..|xs| - 1];
    if init != [] {
      RunningMinIsMinimum(init);
      assert forall i :: 0 <= i < |init| ==> init[i] == xs[i];
    }
  }

  /** With non-negative limits the fold is the minimum over the matched rules. */
  lemma FairShareIsMinimum(rules: seq<Rule>, tnums: seq<nat>)
    requires tnums != [] && Within(tnums, |rules|)
    requires forall i :: 0 <= i < |tnums| ==> rules[tnums[i]].maxLimit >= 0
    ensures forall i :: 0 <= i < |tnums| ==> 0 <= FairShare(rules, tnums) <= Share(rules[tnums[i]])
    ensures exists i :: 0 <= i < |tnums| && FairShare(rules, tnums) == Share(rules[tnums[i]])
  {
    var shares := Shares(rules, tnums);
    RunningMinIsMinimum(shares);
    assert forall j :: 0 <= j < |tnums| ==> shares[j] == Share(rules[tnums[j]]);
    var i :| 0 <= i < |shares| && shares[i] == RunningMin(shares);
  }

  /** Taking a slot on one more rule changes the table at that rule only. */
  lemma BumpOneMore(rules: seq<Rule>, tnums: seq<nat>, t: nat)
    requires t < |rules| && t !in tnums
    ensures Bump(rules, tnums, 1)[t] == rules[t]
    ensures Bump(rules, tnums + [t], 1) ==
      Bump(rules, tnums, 1)[t := rules[t].(numSending := rules[t].numSending + 1)]
  {
    var more := tnums + [t];
    forall i | 0 <= i < |rules|
      ensures Added(more, i, 1, |more|) == Added(tnums, i, 1, |tnums|) + (if i == t then 1 else 0)
    {
      AddedFrame(tnums, more, i, 1, |tnums|);
    }
    NotListed(tnums, t, 1, |tnums|);
  }

  /** What taking a slot on one more rule does to the two limits. */
  lemma FoldOneMore(rules: seq<Rule>, tnums: seq<nat>, t: nat)
    requires Within(tnums, |rules|) && t < |rules| && t !in tnums && rules[t].numSending >= 0
    ensures Within(tnums + [t], |rules|)
    ensures FairShare(Bump(rules, tnums + [t], 1), tnums + [t]) ==
      FoldMin(FairShare(Bump(rules, tnums, 1), tnums), Quot(rules[t].maxLimit, rules[t].numSending + 1))
    ensures RunningMax(Floors(rules, tnums + [t])) == FoldMax(RunningMax(Floors(rules, tnums)), rules[t].minLimit)
  {
    var more := tnums + [t];
    BumpOneMore(rules, tnums, t);
    var before, after := Bump(rules, tnums, 1), Bump(rules, more, 1);
    assert forall i :: 0 <= i < |tnums| ==> after[tnums[i]] == before[tnums[i]];
    assert Shares(after, more)[..|tnums|] == Shares(before, tnums);
    assert Floors(rules, more)[..|tnums|] == Floors(rules, tnums);
  }

  /** A rule refuses new senders while its rolling rate is above twice its maximum or below its minimum. */
  predicate Refuses(rule: Rule) {
    rule.rate > rule.maxLimit * 2 || rule.rate < rule.minLimit
  }

  /** `check_request`: the decision and the table it leaves behind. */
  ghost function Check(rules: seq<Rule>, path: seq<Byte>): (Decision, seq<Rule>)
  {
    var tnums := Matched(rules, path);
    if tnums == [] then (Unlimited, rules)
    else if exists i :: 0 <= i < |tnums| && Refuses(rules[tnums[i]]) then (Reject, rules)
    else
      var admitted := Bump(rules, tnums, 1);
      (Allow(tnums, FairShare(admitted, tnums), RunningMax(Floors(rules, tnums))), admitted)
  }

  /** Some rule among the first ten matches is above twice its maximum or below its minimum. */
  ghost predicate OverLimit(rules: seq<Rule>, path: seq<Byte>) {
    exists t :: t in Matched(rules, path) && (rules[t].rate > 2 * rules[t].maxLimit || rules[t].rate < rules[t].minLimit)
  }

  /** The decision: no match, no limit; a match over its limits, refusal; otherwise all the matches. */
  lemma DecisionIs(rules: seq<Rule>, path: seq<Byte>)
    ensures Check(rules, path).0.Unlimited? <==> Matched(rules, path) == []
    ensures Check(rules, path).0.Reject? <==> OverLimit(rules, path)
    ensures Check(rules, path).0.Allow? ==> Check(rules, path).0.tnums == Matched(rules, path)
  {
    var tnums := Matched(rules, path);
    if OverLimit(rules, path) {
      var t :| t in tnums && (rules[t].rate > 2 * rules[t].maxLimit || rules[t].rate < rules[t].minLimit);
      var i :| 0 <= i < |tnums| && tnums[i] == t;
      assert Refuses(rules[tnums[i]]);
    }
    if Check(rules, path).0.Reject? {
      var i :| 0 <= i < |tnums| && Refuses(rules[tnums[i]]);
      assert tnums[i] in tnums;
    }
  }

  lemma {:induction false} RunningMaxIsMaximum(xs: seq<int>)
    requires xs != [] && forall i :: 0 <= i < |xs| ==> xs[i] >= 0
    ensures forall i :: 0 <= i < |xs| ==> RunningMax(xs) >= xs[i]
    ensures RunningMax(xs) in xs
  {
    var init := xs[..|xs| - 1];
    if init != [] {
      RunningMaxIsMaximum(init);
      assert forall i :: 0 <= i < |init| ==> init[i] == xs[i];
    }
  }

  /** A sender's part of a rule once it is counted there. */
  function PartOf(rule: Rule): int
    requires rule.numSending >= 0
  {
    Quot(rule.maxLimit, rule.numSending + 1)
  }

  predicate Lawful(rules: seq<Rule>, tnums: seq<nat>) {
    && Distinct(tnums) && Within(tnums, |rules|)
    && forall i :: 0 <= i < |tnums| ==>
         rules[tnums[i]].maxLimit >= 0 && rules[tnums[i]].minLimit >= 0 && rules[tnums[i]].numSending >= 0
  }

  lemma GrantedShare(rules: seq<Rule>, tnums: seq<nat>)
    requires Lawful(rules, tnums) && tnums != []
    ensures var share := FairShare(Bump(rules, tnums, 1), tnums);
      && (forall i :: 0 <= i < |tnums| ==> share <= PartOf(rules[tnums[i]]))
      && exists i :: 0 <= i < |tnums| && share == PartOf(rules[tnums[i]])
  {
    var admitted := Bump(rules, tnums, 1);
    forall i | 0 <= i < |tnums|
      ensures admitted[tnums[i]].maxLimit >= 0 && Share(admitted[tnums[i]]) == PartOf(rules[tnums[i]])
    {
      DistinctEffects(rules, tnums, 1, tnums[i]);
    }
    FairShareIsMinimum(admitted, tnums);
    var j :| 0 <= j < |tnums| && FairShare(admitted, tnums) == Share(admitted[tnums[j]]);
  }

  lemma GrantedFloor(rules: seq<Rule>, tnums: seq<nat>)
    requires Lawful(rules, tnums) && tnums != []
    ensures var floor := RunningMax(Floors(rules, tnums));
      && (forall i :: 0 <= i < |tnums| ==> floor >= rules[tnums[i]].minLimit)
      && exists i :: 0 <= i < |tnums| && floor == rules[tnums[i]].minLimit
  {
    var floors := Floors(rules, tnums);
    RunningMaxIsMaximum(floors);
    assert forall i :: 0 <= i < |tnums| ==> floors[i] == rules[tnums[i]].minLimit;
    var i :| 0 <= i < |floors| && floors[i] == RunningMax(floors);
  }

  /** The limits granted: the least of the matched maxima, each divided by its senders with this one counted, and the
      greatest of the matched minima. */
  lemma GrantIs(rules: seq<Rule>, path: seq<Byte>)
    requires Check(rules, path).0.Allow? && Lawful(rules, Matched(rules, path))
    ensures var d := Check(rules, path).0;
      && (forall i :: 0 <= i < |d.tnums| ==> d.maxLimit <= PartOf(rules[d.tnums[i]]) && d.minLimit >= rules[d.tnums[i]].minLimit)
      && (exists i :: 0 <= i < |d.tnums| && d.maxLimit == PartOf(rules[d.tnums[i]]))
      && (exists i :: 0 <= i < |d.tnums| && d.minLimit == rules[d.tnums[i]].minLimit)
  {
    GrantedShare(rules, Matched(rules, path));
    GrantedFloor(rules, Matched(rules, path));
  }

  /** Admission adds one sender to exactly the granted rules; a refusal changes nothing. */
  lemma CheckTakesListedSlots(rules: seq<Rule>, path: seq<Byte>, r: nat)
    requires r < |rules|
    ensures |Check(rules, path).1| == |rules|
    ensures Check(rules, path).1[r] ==
      if Check(rules, path).0.Allow? && r in Check(rules, path).0.tnums
      then rules[r].(numSending := rules[r].numSending + 1) else rules[r]
  {
    if Check(rules, path).0.Allow? {
      DistinctEffects(rules, Check(rules, path).0.tnums, 1, r);
    }
  }

  /** A rule whose rolling rate is non-negative never admits under a negative limit. */
  lemma AdmittedLimitsAreNonNegative(rules: seq<Rule>, path: seq<Byte>)
    requires forall r :: r in rules ==> r.rate >= 0
    requires Check(rules, path).0.Allow?
    ensures var tnums := Check(rules, path).0.tnums;
      forall i :: 0 <= i < |tnums| ==> rules[tnums[i]].maxLimit >= 0
  {
    var tnums := Matched(rules, path);
    forall i | 0 <= i < |tnums| ensures rules[tnums[i]].maxLimit >= 0 {
      assert rules[tnums[i]] in rules && !Refuses(rules[tnums[i]]);
    }
  }

  /** The rolling average of one rule: (2 * rate + bytes / 2) / 3. */
  function Averaged(rule: Rule): (r: Rule)
    ensures r.bytesSinceAvg == 0 && r.numSending == rule.numSending && r.maxLimit == rule.maxLimit
    ensures rule.rate >= 0 && rule.bytesSinceAvg >= 0 ==>
      0 <= r.rate <= Max(rule.rate, Quot(rule.bytesSinceAvg, THROTTLE_TIME))
  {
    var recent := Quot(rule.bytesSinceAvg, THROTTLE_TIME);
    assert rule.rate >= 0 && rule.bytesSinceAvg >= 0 ==> 0 <= Quot(2 * rule.rate + recent, 3) <= Max(rule.rate, recent) by {
      if rule.rate >= 0 && rule.bytesSinceAvg >= 0 {
        QuotIsDivision(2 * rule.rate + recent, 3);
      }
    }
    rule.(rate := Quot(2 * rule.rate + recent, 3), bytesSinceAvg := 0)
  }

  /** The new rate in closed form: four parts of the old rate and one of the bytes of a two-second window, by six. */
  lemma AverageIs(rule: Rule)
    requires rule.rate >= 0 && rule.bytesSinceAvg >= 0
    ensures 6 * Averaged(rule).rate <= 4 * rule.rate + rule.bytesSinceAvg < 6 * Averaged(rule).rate + 6
  {
    var recent := Quot(rule.bytesSinceAvg, THROTTLE_TIME);
    QuotIsDivision(rule.bytesSinceAvg, THROTTLE_TIME);
    QuotIsDivision(2 * rule.rate + recent, 3);
  }

  function AveragedAll(rules: seq<Rule>): (out: seq<Rule>)
    ensures |out| == |rules|
  {
    seq(|rules|, i requires 0 <= i < |rules| => Averaged(rules[i]))
  }

  lemma CheckKeepsCounts(rules: seq<Rule>, path: seq<Byte>)
    requires forall i :: 0 <= i < |rules| ==> rules[i].numSending >= 0
    ensures forall i :: 0 <= i < |Check(rules, path).1| ==> Check(rules, path).1[i].numSending >= 0
  {
    forall i | 0 <= i < |rules| ensures |Check(rules, path).1| == |rules| && Check(rules, path).1[i].numSending >= 0 {
      CheckTakesListedSlots(rules, path, i);
    }
  }

  /** Where the admission walk stands after the first `n` rules, none of which refused. */
  ghost predicate Walked(rules: seq<Rule>, path: seq<Byte>, n: nat, entries: seq<Rule>, tnums: seq<nat>,
                         maxLimit: int, minLimit: int)
    requires n <= |rules|
  {
    && tnums == MatchedUpTo(rules, path, n) && Within(tnums, |rules|)
    && (forall i :: 0 <= i < |tnums| ==> !Refuses(rules[tnums[i]]))
    && entries == Bump(rules, tnums, 1)
    && maxLimit == FairShare(entries, tnums)
    && minLimit == RunningMax(Floors(rules, tnums))
  }

  lemma WalkEnds(rules: seq<Rule>, path: seq<Byte>, n: nat, entries: seq<Rule>, tnums: seq<nat>, maxLimit: int, minLimit: int)
    requires n <= |rules| && (n == |rules| || |tnums| == MAX_THROTTLE_NUMS)
    requires Walked(rules, path, n, entries, tnums, maxLimit, minLimit)
    ensures tnums == Matched(rules, path)
    ensures Check(rules, path) == if tnums == [] then (Unlimited, entries) else (Allow(tnums, maxLimit, minLimit), entries)
  {
    MatchedExtends(rules, path, n, |rules|);
    assert tnums == [] ==> Bump(rules, tnums, 1) == rules;
  }

  /** The three ways the walk goes on at rule `n`. */
  lemma WalkedNext(rules: seq<Rule>, path: seq<Byte>, n: nat, entries: seq<Rule>, tnums: seq<nat>,
                   maxLimit: int, minLimit: int)
    requires n < |rules| && Walked(rules, path, n, entries, tnums, maxLimit, minLimit)
    requires |tnums| < MAX_THROTTLE_NUMS
    ensures |entries| == |rules| && entries[n] == rules[n] && Bump(entries, tnums, -1) == rules
    ensures !Glob.Matches(rules[n].pattern, path) ==> Walked(rules, path, n + 1, entries, tnums, maxLimit, minLimit)
    ensures Glob.Matches(rules[n].pattern, path) && Refuses(rules[n]) ==> Check(rules, path) == (Reject, rules)
    ensures Glob.Matches(rules[n].pattern, path) && !Refuses(rules[n]) && rules[n].numSending >= 0 ==>
      Walked(rules, path, n + 1, entries[n := rules[n].(numSending := rules[n].numSending + 1)], tnums + [n],
             FoldMin(maxLimit, Quot(rules[n].maxLimit, rules[n].numSending + 1)), FoldMax(minLimit, rules[n].minLimit))
  {
    BumpOneMore(rules, tnums, n);
    BumpUndone(rules, tnums);
    if Glob.Matches(rules[n].pattern, path) {
      if Refuses(rules[n]) {
        RefusedByOne(rules, path, n);
      } else if rules[n].numSending >= 0 {
        FoldOneMore(rules, tnums, n);
      }
    }
  }

  lemma RefusedByOne(rules: seq<Rule>, path: seq<Byte>, t: nat)
    requires t < |rules| && |MatchedUpTo(rules, path, t)| < MAX_THROTTLE_NUMS
    requires Glob.Matches(rules[t].pattern, path) && Refuses(rules[t])
    ensures Check(rules, path) == (Reject, rules)
  {
    MatchedIsComplete(rules, path, t);
    var tnums := Matched(rules, path);
    var i :| 0 <= i < |tnums| && tnums[i] == t;
  }

  // ----- Negative counts. -----

  /** A match resets a negative count before it takes a slot. */
  function Raise(rule: Rule): Rule {
    rule.(numSending := Max(0, rule.numSending))
  }

  function RaiseAll(rules: seq<Rule>, tnums: seq<nat>): (out: seq<Rule>)
    ensures |out| == |rules|
  {
    seq(|rules|, i requires 0 <= i < |rules| => if i in tnums then Raise(rules[i]) else rules[i])
  }

  /** The listed rules in front of the first one that refuses. */
  function BeforeRefusal(rules: seq<Rule>, tnums: seq<nat>): (before: seq<nat>)
    requires Within(tnums, |rules|)
    ensures before <= tnums && forall i :: 0 <= i < |before| ==> !Refuses(rules[before[i]])
    ensures |before| < |tnums| ==> Refuses(rules[tnums[|before|]])
  {
    if tnums == [] || Refuses(rules[tnums[0]]) then [] else [tnums[0]] + BeforeRefusal(rules, tnums[1..])
  }

  /** The table that the walk decides on: the rules it came past with negative counts reset. */
  ghost function Raised(rules: seq<Rule>, path: seq<Byte>): seq<Rule> {
    RaiseAll(rules, BeforeRefusal(rules, Matched(rules, path)))
  }

  predicate NonNegativeOn(rules: seq<Rule>, tnums: seq<nat>)
    requires Within(tnums, |rules|)
  {
    forall i :: 0 <= i < |tnums| ==> rules[tnums[i]].numSending >= 0
  }

  lemma RaiseAllSameIff(rules: seq<Rule>, tnums: seq<nat>)
    requires Within(tnums, |rules|)
    ensures RaiseAll(rules, tnums) == rules <==> NonNegativeOn(rules, tnums)
  {
    var out := RaiseAll(rules, tnums);
    if NonNegativeOn(rules, tnums) {
      forall j | 0 <= j < |rules| ensures out[j] == rules[j] {}
    } else {
      var i :| 0 <= i < |tnums| && rules[tnums[i]].numSending < 0;
      assert out[tnums[i]].numSending == 0;
    }
  }

  lemma RejectKeeps(rules: seq<Rule>, path: seq<Byte>)
    ensures Check(rules, path).0.Reject? ==> Check(rules, path).1 == rules
  {}

  /** A refusal leaves the table as it was exactly when no rule in front of the refusing one had a negative count. */
  lemma RefusalRestoresIff(rules: seq<Rule>, path: seq<Byte>)
    requires Check(Raised(rules, path), path).0.Reject?
    ensures Check(Raised(rules, path), path).1 == rules <==> NonNegativeOn(rules, BeforeRefusal(rules, Matched(rules, path)))
  {
    RejectKeeps(Raised(rules, path), path);
    RaiseAllSameIff(rules, BeforeRefusal(rules, Matched(rules, path)));
  }

  lemma NothingToRaise(rules: seq<Rule>, path: seq<Byte>)
    requires forall i :: 0 <= i < |rules| ==> rules[i].numSending >= 0
    ensures Raised(rules, path) == rules
  {
    RaiseAllSameIff(rules, BeforeRefusal(rules, Matched(rules, path)));
  }

  lemma {:induction false} RaiseKeepsMatches(rules: seq<Rule>, tnums: seq<nat>, path: seq<Byte>, n: nat)
    requires n <= |rules|
    ensures MatchedUpTo(RaiseAll(rules, tnums), path, n) == MatchedUpTo(rules, path, n)
  {
    if n > 0 {
      RaiseKeepsMatches(rules, tnums, path, n - 1);
    }
  }

  lemma {:induction false} RaiseOneKeepsMatches(rules: seq<Rule>, t: nat, path: seq<Byte>, n: nat)
    requires n <= |rules| && t < |rules|
    ensures MatchedUpTo(rules[t := Raise(rules[t])], path, n) == MatchedUpTo(rules, path, n)
  {
    if n > 0 {
      RaiseOneKeepsMatches(rules, t, path, n - 1);
    }
  }

  /** Before rule `n` takes its slot, resetting its count changes nothing else that the walk has found. */
  lemma WalkedRaise(base: seq<Rule>, path: seq<Byte>, n: nat, entries: seq<Rule>, tnums: seq<nat>, maxLimit: int, minLimit: int)
    requires n < |base| && Walked(base, path, n, entries, tnums, maxLimit, minLimit)
    ensures |entries| == |base|
    ensures Walked(base[n := Raise(base[n])], path, n, entries[n := Raise(base[n])], tnums, maxLimit, minLimit)
  {
    var raised := base[n := Raise(base[n])];
    RaiseOneKeepsMatches(base, n, path, n);
    BumpRaised(base, tnums, n);
    assert Shares(Bump(raised, tnums, 1), tnums) == Shares(Bump(base, tnums, 1), tnums);
    assert Floors(raised, tnums) == Floors(base, tnums);
  }

  lemma BumpRaised(base: seq<Rule>, tnums: seq<nat>, n: nat)
    requires n < |base| && n !in tnums
    ensures Bump(base[n := Raise(base[n])], tnums, 1) == Bump(base, tnums, 1)[n := Raise(base[n])]
  {
    NotListed(tnums, n, 1, |tnums|);
    assert tnums[..|tnums|] == tnums;
  }

  /** The table after a match at `n` was taken: as the walk leaves it. */
  lemma WalkedTake(base: seq<Rule>, path: seq<Byte>, n: nat, entries: seq<Rule>, tnums: seq<nat>, maxLimit: int, minLimit: int)
    requires n < |base| && Walked(base, path, n, entries, tnums, maxLimit, minLimit)
    requires |tnums| < MAX_THROTTLE_NUMS && Glob.Matches(base[n].pattern, path) && !Refuses(base[n])
    ensures |entries| == |base|
    ensures var count := Max(0, base[n].numSending) + 1;
      Walked(base[n := Raise(base[n])], path, n + 1, entries[n := base[n].(numSending := count)], tnums + [n],
             FoldMin(maxLimit, Quot(base[n].maxLimit, count)), FoldMax(minLimit, base[n].minLimit))
  {
    WalkedRaise(base, path, n, entries, tnums, maxLimit, minLimit);
    var raised, before := base[n := Raise(base[n])], entries[n := Raise(base[n])];
    WalkedNext(raised, path, n, before, tnums, maxLimit, minLimit);
    var taken := raised[n].(numSending := raised[n].numSending + 1);
    assert before[n := taken] == entries[n := taken];
  }

  /** The table the walk works on once it has passed the first `n` rules. */
  ghost function Base(rules: seq<Rule>, path: seq<Byte>, n: nat): (base: seq<Rule>)
    requires n <= |rules|
    ensures |base| == |rules|
  {
    if n == 0 then rules
    else
      var before := Base(rules, path, n - 1);
      if |MatchedUpTo(rules, path, n - 1)| < MAX_THROTTLE_NUMS && Glob.Matches(rules[n - 1].pattern, path)
      then before[n - 1 := Raise(rules[n - 1])] else before
  }

  lemma {:induction false} BaseIsRaised(rules: seq<Rule>, path: seq<Byte>, n: nat)
    requires n <= |rules|
    ensures Base(rules, path, n) == RaiseAll(rules, MatchedUpTo(rules, path, n))
    ensures forall i :: n <= i < |rules| ==> Base(rules, path, n)[i] == rules[i]
  {
    if n > 0 {
      BaseIsRaised(rules, path, n - 1);
      var before, after := MatchedUpTo(rules, path, n - 1), MatchedUpTo(rules, path, n);
      assert forall i :: i in after <==> i in before || (i == n - 1 && after != before);
    }
  }

  lemma WalkStarts(rules: seq<Rule>, path: seq<Byte>)
    ensures Walking(rules, path, 0, rules, [], NOLIMIT, NOLIMIT)
  {
    assert Bump(rules, [], 1) == rules && Base(rules, path, 0) == rules;
  }

  /** Where the walk over the given table stands. */
  ghost predicate Walking(rules: seq<Rule>, path: seq<Byte>, n: nat, entries: seq<Rule>, tnums: seq<nat>,
                          maxLimit: int, minLimit: int) {
    n <= |rules| == |entries| && Walked(Base(rules, path, n), path, n, entries, tnums, maxLimit, minLimit)
  }

  /** The walk stopped at rule `t`, the first match that refuses. */
  ghost predicate RefusedAt(rules: seq<Rule>, path: seq<Byte>, t: nat) {
    && t < |rules| && |MatchedUpTo(rules, path, t)| < MAX_THROTTLE_NUMS
    && Glob.Matches(rules[t].pattern, path) && Refuses(rules[t])
    && forall i :: 0 <= i < |MatchedUpTo(rules, path, t)| ==> !Refuses(rules[MatchedUpTo(rules, path, t)[i]])
  }

  lemma FirstRefusal(rules: seq<Rule>, path: seq<Byte>, t: nat)
    requires RefusedAt(rules, path, t)
    ensures BeforeRefusal(rules, Matched(rules, path)) == MatchedUpTo(rules, path, t)
  {
    var before, tnums := MatchedUpTo(rules, path, t), Matched(rules, path);
    MatchedExtends(rules, path, t + 1, |rules|);
    assert MatchedUpTo(rules, path, t + 1) == before + [t];
    PrefixStops(rules, tnums, before);
  }

  /** The rules in front of the first refusal are known by what follows them. */
  lemma PrefixStops(rules: seq<Rule>, tnums: seq<nat>, before: seq<nat>)
    requires Within(tnums, |rules|) && before < tnums && Refuses(rules[tnums[|before|]])
    requires forall i :: 0 <= i < |before| ==> !Refuses(rules[before[i]])
    ensures BeforeRefusal(rules, tnums) == before
  {
  }

  lemma RefusalFound(rules: seq<Rule>, path: seq<Byte>, t: nat)
    requires RefusedAt(rules, path, t)
    ensures Raised(rules, path) == Base(rules, path, t) && Check(Base(rules, path, t), path) == (Reject, Base(rules, path, t))
  {
    FirstRefusal(rules, path, t);
    BaseIsRaised(rules, path, t);
    RaiseKeepsMatches(rules, MatchedUpTo(rules, path, t), path, t);
    RefusedByOne(Base(rules, path, t), path, t);
  }

  lemma RaiseKeepsRefusals(rules: seq<Rule>, tnums: seq<nat>, t: nat)
    requires t < |rules|
    ensures Refuses(RaiseAll(rules, tnums)[t]) <==> Refuses(rules[t])
  {}

  lemma NoRefusal(rules: seq<Rule>, tnums: seq<nat>)
    requires Within(tnums, |rules|) && forall i :: 0 <= i < |tnums| ==> !Refuses(rules[tnums[i]])
    ensures BeforeRefusal(rules, tnums) == tnums
  {}

  lemma NoRefusalFound(rules: seq<Rule>, path: seq<Byte>, n: nat, entries: seq<Rule>, tnums: seq<nat>, maxLimit: int, minLimit: int)
    requires Walking(rules, path, n, entries, tnums, maxLimit, minLimit)
    requires n == |rules| || |tnums| == MAX_THROTTLE_NUMS
    ensures Check(Raised(rules, path), path) ==
      if tnums == [] then (Unlimited, entries) else (Allow(tnums, maxLimit, minLimit), entries)
  {
    var base, before := Base(rules, path, n), MatchedUpTo(rules, path, n);
    WalkEnds(base, path, n, entries, tnums, maxLimit, minLimit);
    BaseIsRaised(rules, path, n);
    RaiseKeepsMatches(rules, before, path, n);
    RaiseKeepsMatches(rules, before, path, |rules|);
    forall i | 0 <= i < |tnums| ensures !Refuses(rules[tnums[i]]) {
      RaiseKeepsRefusals(rules, before, tnums[i]);
    }
    NoRefusal(rules, tnums);
  }

  /** What is known when the walk comes to rule `n`. */
  lemma RoundStarts(rules: seq<Rule>, path: seq<Byte>, n: nat, entries: seq<Rule>, tnums: seq<nat>, maxLimit: int, minLimit: int)
    requires n < |rules| && Walked(Base(rules, path, n), path, n, entries, tnums, maxLimit, minLimit)
    requires |tnums| < MAX_THROTTLE_NUMS
    ensures Base(rules, path, n)[n] == rules[n]
    ensures Glob.Matches(rules[n].pattern, path) && Refuses(rules[n]) ==> RefusedAt(rules, path, n)
    ensures Base(rules, path, n + 1) ==
      if Glob.Matches(rules[n].pattern, path) then Base(rules, path, n)[n := Raise(rules[n])] else Base(rules, path, n)
  {
    var before := MatchedUpTo(rules, path, n);
    BaseIsRaised(rules, path, n);
    RaiseKeepsMatches(rules, before, path, n);
    forall i | 0 <= i < |before| ensures !Refuses(rules[before[i]]) {
      RaiseKeepsRefusals(rules, before, before[i]);
    }
  }

  class ThrottleTable {
    var entries: seq<Rule>

    ghost predicate Valid()
      reads this
    {
      forall i :: 0 <= i < |entries| ==> entries[i].numSending >= 0
    }

    constructor (rules: seq<Rule>)
      ensures entries == rules
    {
      entries := rules;
    }

    /** Admission: walk every rule, refuse or take a sender slot on each match. */
    method CheckRequest(filename: seq<Byte>) returns (d: Decision)
      modifies this
      ensures (d, entries) == Check(Raised(old(entries), filename), filename)
      ensures old(Valid()) ==> Valid() && (d, entries) == Check(old(entries), filename)
    {
      ghost var rules := entries;
      d := Decide(filename);
      if old(Valid()) {
        NothingToRaise(rules, filename);
        CheckKeepsCounts(rules, filename);
      }
    }

    method Decide(filename: seq<Byte>) returns (d: Decision)
      modifies this
      ensures (d, entries) == Check(Raised(old(entries), filename), filename)
    {
      if entries == [] {
        NothingToRaise(entries, filename);
        return Unlimited;
      }
      ghost var rules := entries;
      ghost var n;
      var refused, tnums, maxLimit, minLimit;
      refused, tnums, maxLimit, minLimit, n := WalkRules(filename);
      if refused {
        RefusalFound(rules, filename, n);
        return Reject;
      }
      NoRefusalFound(rules, filename, n, entries, tnums, maxLimit, minLimit);
      return if tnums == [] then Unlimited else Allow(tnums, maxLimit, minLimit);
    }

    /** The walk over the rules, until one refuses, ten have matched or none is left. */
    method WalkRules(filename: seq<Byte>)
      returns (refused: bool, tnums: seq<nat>, maxLimit: int, minLimit: int, ghost n: nat)
      modifies this
      ensures n <= |old(entries)|
      ensures refused ==> RefusedAt(old(entries), filename, n) && entries == Base(old(entries), filename, n)
      ensures !refused ==>
        && (n == |old(entries)| || |tnums| == MAX_THROTTLE_NUMS)
        && Walking(old(entries), filename, n, entries, tnums, maxLimit, minLimit)
    {
      refused, tnums, maxLimit, minLimit := false, [], NOLIMIT, NOLIMIT;
      ghost var rules := entries;
      WalkStarts(rules, filename);
      for tnum := 0 to |entries|
        invariant Walking(rules, filename, tnum, entries, tnums, maxLimit, minLimit)
      {
        n := tnum;
        if |tnums| >= MAX_THROTTLE_NUMS {
          return false, tnums, maxLimit, minLimit, n;
        }
        refused, tnums, maxLimit, minLimit := Advance(rules, filename, tnum, tnums, maxLimit, minLimit);
        if refused {
          return;
        }
      }
      return false, tnums, maxLimit, minLimit, |rules|;
    }

    /** One round, in terms of the table the walk started with. */
    method Advance(ghost rules: seq<Rule>, filename: seq<Byte>, tnum: nat, before: seq<nat>, maxBefore: int, minBefore: int)
      returns (refused: bool, tnums: seq<nat>, maxLimit: int, minLimit: int)
      requires tnum < |rules| && |before| < MAX_THROTTLE_NUMS
      requires Walking(rules, filename, tnum, entries, before, maxBefore, minBefore)
      modifies this
      ensures refused ==> RefusedAt(rules, filename, tnum) && entries == Base(rules, filename, tnum)
      ensures !refused ==> Walking(rules, filename, tnum + 1, entries, tnums, maxLimit, minLimit)
    {
      RoundStarts(rules, filename, tnum, entries, before, maxBefore, minBefore);
      refused, tnums, maxLimit, minLimit :=
        Consider(Base(rules, filename, tnum), filename, tnum, before, maxBefore, minBefore);
    }

    /** One round of the walk: refuse and roll back, take a slot, or pass over a rule that does not match. */
    method Consider(ghost base: seq<Rule>, filename: seq<Byte>, tnum: nat, before: seq<nat>, maxBefore: int, minBefore: int)
      returns (refused: bool, tnums: seq<nat>, maxLimit: int, minLimit: int)
      requires tnum < |base| == |entries| && |before| < MAX_THROTTLE_NUMS
      requires Walked(base, filename, tnum, entries, before, maxBefore, minBefore)
      modifies this
      ensures |entries| == |base|
      ensures refused <==> Glob.Matches(base[tnum].pattern, filename) && Refuses(base[tnum])
      ensures refused ==> entries == base
      ensures !refused ==>
        var next := if Glob.Matches(base[tnum].pattern, filename) then base[tnum := Raise(base[tnum])] else base;
        Walked(next, filename, tnum + 1, entries, tnums, maxLimit, minLimit)
    {
      refused, tnums, maxLimit, minLimit := false, before, maxBefore, minBefore;
      var entry := entries[tnum];
      WalkedNext(base, filename, tnum, entries, before, maxBefore, minBefore);
      var hit := Glob.MatchPattern(entry.pattern, filename);
      if !hit {
        return;
      }
      if entry.rate > entry.maxLimit * 2 || entry.rate < entry.minLimit {
        Clear(before);
        refused := true;
        return;
      }
      tnums, maxLimit, minLimit := Take(base, filename, tnum, before, maxBefore, minBefore);
    }

    /** Take a slot on a match that does not refuse. */
    method Take(ghost base: seq<Rule>, ghost filename: seq<Byte>, tnum: nat, before: seq<nat>, maxBefore: int, minBefore: int)
      returns (tnums: seq<nat>, maxLimit: int, minLimit: int)
      requires tnum < |base| == |entries| && |before| < MAX_THROTTLE_NUMS && entries[tnum] == base[tnum]
      requires Walked(base, filename, tnum, entries, before, maxBefore, minBefore)
      requires Glob.Matches(base[tnum].pattern, filename) && !Refuses(base[tnum])
      modifies this
      ensures Walked(base[tnum := Raise(base[tnum])], filename, tnum + 1, entries, tnums, maxLimit, minLimit)
      ensures |entries| == |base|
    {
      WalkedTake(base, filename, tnum, entries, before, maxBefore, minBefore);
      var entry := entries[tnum];
      if entry.numSending < 0 {
        entry := entry.(numSending := 0);
      }
      entry := entry.(numSending := entry.numSending + 1);
      entries := entries[tnum := entry];
      tnums := before + [tnum];
      maxLimit := FoldMin(maxBefore, Quot(entry.maxLimit, entry.numSending));
      minLimit := FoldMax(minBefore, entry.minLimit);
    }

    /** Give back one sender slot per listing; unknown indexes are skipped. */
    method Clear(tnums: seq<nat>)
      modifies this
      ensures entries == Bump(old(entries), tnums, -1)
    {
      for i := 0 to |tnums|
        invariant |entries| == |old(entries)|
        invariant forall j :: 0 <= j < |entries| ==>
          entries[j] == old(entries)[j].(numSending := old(entries)[j].numSending + Added(tnums, j, -1, i))
      {
        if tnums[i] < |entries| {
          var entry := entries[tnums[i]];
          entries := entries[tnums[i] := entry.(numSending := entry.numSending - 1)];
        }
      }
    }

    /** Charge `n` bytes once per listing; unknown indexes are skipped. */
    method AddBytes(tnums: seq<nat>, n: int)
      modifies this
      ensures entries == Charge(old(entries), tnums, n)
    {
      for i := 0 to |tnums|
        invariant |entries| == |old(entries)|
        invariant forall j :: 0 <= j < |entries| ==>
          entries[j] == old(entries)[j].(bytesSinceAvg := old(entries)[j].bytesSinceAvg + Added(tnums, j, n, i))
      {
        if tnums[i] < |entries| {
          var entry := entries[tnums[i]];
          entries := entries[tnums[i] := entry.(bytesSinceAvg := entry.bytesSinceAvg + n)];
        }
      }
    }

    /** The share over the listed rules; unknown indexes are skipped. */
    method FairShareFor(tnums: seq<nat>) returns (maxLimit: int)
      ensures maxLimit == FairShare(entries, Existing(tnums, |entries|))
    {
      maxLimit := NOLIMIT;
      for i := 0 to |tnums|
        invariant maxLimit == FairShare(entries, Existing(tnums[..i], |entries|))
      {
        assert tnums[..i + 1][..i] == tnums[..i];
        if tnums[i] < |entries| {
          var entry := entries[tnums[i]];
          maxLimit := FoldMin(maxLimit, Quot(entry.maxLimit, Max(1, entry.numSending)));
          FairShareAppends(entries, Existing(tnums[..i], |entries|), tnums[i]);
        }
      }
      assert tnums[..|tnums|] == tnums;
    }

    method UpdateAverages()
      modifies this
      ensures entries == AveragedAll(old(entries))
    {
      var i := 0;
      while i < |entries|
        invariant 0 <= i <= |entries| == |old(entries)|
        invariant forall j :: 0 <= j < i ==> entries[j] == Averaged(old(entries)[j])
        invariant forall j :: i <= j < |entries| ==> entries[j] == old(entries)[j]
      {
        var entry := entries[i];
        entries := entries[i := entry.(
          rate := Quot(2 * entry.rate + Quot(entry.bytesSinceAvg, THROTTLE_TIME), 3),
          bytesSinceAvg := 0)];
        i := i + 1;
      }
    }
  }
}
