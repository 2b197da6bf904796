/** The random walk of ROUTE_CREATE: the choice of the next node and the time budget that ends the walk. */
module RouteWalk {
  import opened Crypto
  import opened Wrappers

  datatype Candidate = Candidate(node: Node, averageRtt: real)

  datatype Reason = EligibleIntermediary | FinalCandidate | FinalFallback | PreviousRevisit | PreviousRevisitWithoutRtt

  datatype Selection = Selection(node: Node, averageRtt: real, reason: Reason)

  function OneWay(rtt: real): real {
    if rtt / 2.0 < 1.0 then 1.0 else rtt / 2.0
  }

  /** Python's `int`: towards zero. */
  function Truncate(x: real): int {
    if x < 0.0 then -((-x).Floor) else x.Floor
  }

  function NextTtl(ttl: int, oneWay: real): int {
    var left := Truncate(ttl as real - oneWay);
    if left < 1 then 1 else left
  }

  predicate Eligible(c: Candidate, finalNode: Node, previous: Node, ttl: int) {
    c.node != finalNode && c.node != previous && OneWay(c.averageRtt) < ttl as real
  }

  function Eligibles(candidates: seq<Candidate>, finalNode: Node, previous: Node, ttl: int): (r: seq<Candidate>)
    ensures forall c :: c in r <==> c in candidates && Eligible(c, finalNode, previous, ttl)
  {
    if candidates == [] then []
    else
      var rest := Eligibles(candidates[1..], finalNode, previous, ttl);
      if Eligible(candidates[0], finalNode, previous, ttl) then [candidates[0]] + rest else rest
  }

  predicate Fits(c: Candidate, node: Node, limit: Option<int>) {
    c.node == node && (limit.Some? ==> OneWay(c.averageRtt) < limit.value as real)
  }

  /** The first candidate for a node, within the limit if there is one. */
  function FirstCandidate(candidates: seq<Candidate>, node: Node, limit: Option<int>): (r: Option<Candidate>)
    ensures r.None? ==> forall c :: c in candidates ==> !Fits(c, node, limit)
    ensures r.Some? ==>
              exists i :: && 0 <= i < |candidates| && candidates[i] == r.value && Fits(r.value, node, limit)
                          && forall j :: 0 <= j < i ==> !Fits(candidates[j], node, limit)
  {
    if candidates == [] then None
    else if Fits(candidates[0], node, limit) then Some(candidates[0])
    else
      var rest := FirstCandidate(candidates[1..], node, limit);
      assert rest.Some? ==> exists i :: && 1 <= i < |candidates| && candidates[i] == rest.value
                                        && forall j :: 0 <= j < i ==> !Fits(candidates[j], node, limit) by {
        if rest.Some? {
          var i :| && 0 <= i < |candidates[1..]| && candidates[1..][i] == rest.value
                   && forall j :: 0 <= j < i ==> !Fits(candidates[1..][j], node, limit);
          assert candidates[i + 1] == rest.value;
          assert forall j :: 1 <= j < i + 1 ==> candidates[j] == candidates[1..][j - 1];
        }
      }
      rest
  }

  /** `pick` is the random choice among the eligible intermediaries. */
  function SelectNext(candidates: seq<Candidate>, finalNode: Node, previous: Node, ttl: int, fallback: real, pick: nat)
    : Selection
  {
    var eligible := Eligibles(candidates, finalNode, previous, ttl);
    if |eligible| > 0 then
      var chosen := eligible[pick % |eligible|];
      Selection(chosen.node, chosen.averageRtt, EligibleIntermediary)
    else
      var last := FirstCandidate(candidates, finalNode, None);
      if last.Some? then Selection(last.value.node, last.value.averageRtt, FinalCandidate)
      else if previous == finalNode then Selection(finalNode, 0.0, FinalFallback)
      else
        var revisit := FirstCandidate(candidates, previous, Some(ttl));
        if revisit.Some? then Selection(revisit.value.node, revisit.value.averageRtt, PreviousRevisit)
        else if fallback < ttl as real then Selection(previous, fallback, PreviousRevisitWithoutRtt)
        else Selection(finalNode, 0.0, FinalFallback)
  }

  /**
   * The walk wanders as long as it can: it goes to the final node only if no intermediary fits the budget, and back to
   * where it came from only if, moreover, the final node is not known.
   */
  lemma WandersWhileItCan(candidates: seq<Candidate>, finalNode: Node, previous: Node, ttl: int, fallback: real,
                          pick: nat)
    ensures var sel := SelectNext(candidates, finalNode, previous, ttl, fallback, pick);
            && (sel.reason == EligibleIntermediary <==>
                  exists c :: c in candidates && Eligible(c, finalNode, previous, ttl))
            && (sel.reason == EligibleIntermediary ==> sel.node != finalNode && sel.node != previous)
            && (sel.node == finalNode ==> forall c :: c in candidates ==> !Eligible(c, finalNode, previous, ttl))
            && (sel.node == previous != finalNode ==>
                  forall c :: c in candidates ==> !Eligible(c, finalNode, previous, ttl) && c.node != finalNode)
            && (sel.node == finalNode || sel.node == previous || exists c :: c in candidates && c.node == sel.node)
  {
    var eligible := Eligibles(candidates, finalNode, previous, ttl);
    if |eligible| > 0 {
      assert eligible[pick % |eligible|] in eligible && eligible[0] in eligible;
    } else {
      assert forall c :: c in candidates && Eligible(c, finalNode, previous, ttl) ==> c in eligible;
      assert forall c :: c in candidates && c.node == finalNode ==> Fits(c, finalNode, None);
    }
  }

  /** Half of the round trip, and one millisecond at least, is less than the budget. */
  ghost predicate Affordable(rtt: real, ttl: int) {
    rtt < 2.0 * ttl as real && 1 < ttl
  }

  /** Somebody can be afforded who is neither the final node nor the previous one. */
  ghost predicate CanWander(candidates: seq<Candidate>, finalNode: Node, previous: Node, ttl: int) {
    exists i :: && 0 <= i < |candidates| && candidates[i].node !in {finalNode, previous}
                && Affordable(candidates[i].averageRtt, ttl)
  }

  ghost predicate Knows(candidates: seq<Candidate>, node: Node) {
    exists i :: 0 <= i < |candidates| && candidates[i].node == node
  }

  /** The previous node is known with a round trip that can be afforded. */
  ghost predicate CanReturn(candidates: seq<Candidate>, previous: Node, ttl: int) {
    exists i :: 0 <= i < |candidates| && candidates[i].node == previous && Affordable(candidates[i].averageRtt, ttl)
  }

  /** The round trip of the first candidate for a node that can be afforded, or of the first at all. */
  ghost predicate IsFirst(candidates: seq<Candidate>, node: Node, budget: Option<int>, rtt: real) {
    exists i ::
      && 0 <= i < |candidates| && candidates[i] == Candidate(node, rtt)
      && (budget.Some? ==> Affordable(rtt, budget.value))
      && forall j :: 0 <= j < i ==>
           candidates[j].node != node || (budget.Some? && !Affordable(candidates[j].averageRtt, budget.value))
  }

  lemma WandersExactly(candidates: seq<Candidate>, finalNode: Node, previous: Node, ttl: int)
    ensures Eligibles(candidates, finalNode, previous, ttl) != [] <==> CanWander(candidates, finalNode, previous, ttl)
    ensures forall c :: c in Eligibles(candidates, finalNode, previous, ttl) <==>
              c in candidates && c.node !in {finalNode, previous} && Affordable(c.averageRtt, ttl)
  {
    var eligible := Eligibles(candidates, finalNode, previous, ttl);
    forall c ensures Eligible(c, finalNode, previous, ttl) <==>
                     c.node !in {finalNode, previous} && Affordable(c.averageRtt, ttl) {
    }
    if eligible != [] {
      assert eligible[0] in eligible;
      var i :| 0 <= i < |candidates| && candidates[i] == eligible[0];
    }
    if i :| 0 <= i < |candidates| && candidates[i].node !in {finalNode, previous} &&
            Affordable(candidates[i].averageRtt, ttl) {
      assert candidates[i] in eligible;
    }
  }

  lemma FirstIsFirst(candidates: seq<Candidate>, node: Node, budget: Option<int>)
    ensures var first := FirstCandidate(candidates, node, budget);
            && (first.Some? <==>
                if budget.Some? then CanReturn(candidates, node, budget.value) else Knows(candidates, node))
            && (first.Some? ==> first.value.node == node && IsFirst(candidates, node, budget, first.value.averageRtt))
  {
    forall c ensures Fits(c, node, budget) <==>
                     c.node == node && (budget.Some? ==> Affordable(c.averageRtt, budget.value)) {
    }
    var first := FirstCandidate(candidates, node, budget);
    if first.Some? {
      var i :| && 0 <= i < |candidates| && candidates[i] == first.value && Fits(first.value, node, budget)
               && forall j :: 0 <= j < i ==> !Fits(candidates[j], node, budget);
      assert candidates[i] == Candidate(node, first.value.averageRtt);
    } else {
      assert forall i :: 0 <= i < |candidates| ==> candidates[i] in candidates;
    }
  }

  /**
   * Which node is chosen and why, in every case: from what the node knows, the budget and the configured round trip to
   * a previous node that it has not measured.
   */
  lemma SelectionExactly(candidates: seq<Candidate>, finalNode: Node, previous: Node, ttl: int, fallback: real,
                         pick: nat)
    ensures var sel := SelectNext(candidates, finalNode, previous, ttl, fallback, pick);
            if CanWander(candidates, finalNode, previous, ttl) then
              && sel.reason == EligibleIntermediary && sel.node !in {finalNode, previous}
              && Candidate(sel.node, sel.averageRtt) in candidates && Affordable(sel.averageRtt, ttl)
            else if Knows(candidates, finalNode) then
              && sel.reason == FinalCandidate && sel.node == finalNode
              && IsFirst(candidates, finalNode, None, sel.averageRtt)
            else if previous == finalNode then sel == Selection(finalNode, 0.0, FinalFallback)
            else if CanReturn(candidates, previous, ttl) then
              && sel.reason == PreviousRevisit && sel.node == previous
              && IsFirst(candidates, previous, Some(ttl), sel.averageRtt)
            else if fallback < ttl as real then sel == Selection(previous, fallback, PreviousRevisitWithoutRtt)
            else sel == Selection(finalNode, 0.0, FinalFallback)
  {
    var eligible := Eligibles(candidates, finalNode, previous, ttl);
    WandersExactly(candidates, finalNode, previous, ttl);
    if eligible != [] {
      var chosen := eligible[pick % |eligible|];
      assert chosen in eligible && chosen == Candidate(chosen.node, chosen.averageRtt);
    } else {
      FirstIsFirst(candidates, finalNode, None);
      FirstIsFirst(candidates, previous, Some(ttl));
    }
  }

  /** Everybody who can be wandered to can be drawn. */
  lemma EveryoneCanBeDrawn(candidates: seq<Candidate>, finalNode: Node, previous: Node, ttl: int, fallback: real,
                           c: Candidate)
    returns (pick: nat)
    requires c in candidates && c.node !in {finalNode, previous} && Affordable(c.averageRtt, ttl)
    ensures SelectNext(candidates, finalNode, previous, ttl, fallback, pick) ==
            Selection(c.node, c.averageRtt, EligibleIntermediary)
  {
    WandersExactly(candidates, finalNode, previous, ttl);
    var eligible := Eligibles(candidates, finalNode, previous, ttl);
    pick :| 0 <= pick < |eligible| && eligible[pick] == c;
    PickIsIndex(pick, |eligible|);
  }

  lemma PickIsIndex(pick: nat, n: nat)
    requires pick < n
    ensures pick % n == pick
  {
  }

  /** A forward to a node that is not the final one spends at least one millisecond, and never more than is left. */
  lemma ForwardSpendsBudget(candidates: seq<Candidate>, finalNode: Node, previous: Node, ttl: int, fallback: real,
                            pick: nat)
    requires fallback >= 1.0
    requires SelectNext(candidates, finalNode, previous, ttl, fallback, pick).node != finalNode
    ensures var oneWay := OneWay(SelectNext(candidates, finalNode, previous, ttl, fallback, pick).averageRtt);
            var next := NextTtl(ttl, oneWay);
            && 1 <= next < ttl
            && 1.0 <= oneWay < ttl as real
            && (next as real + oneWay <= ttl as real || next == 1)
  {
    var sel := SelectNext(candidates, finalNode, previous, ttl, fallback, pick);
    var eligible := Eligibles(candidates, finalNode, previous, ttl);
    if |eligible| > 0 {
      assert eligible[pick % |eligible|] in eligible;
    }
    assert 1.0 <= OneWay(sel.averageRtt) < ttl as real;
  }

  // ---------------------------------------------------------------- whole walks

  /** One forward by an intermediary: where it stood, whom it got the message from, what it knew, what it drew. */
  datatype Forward = Forward(node: Node, previous: Node, ttl: int, candidates: seq<Candidate>, pick: nat)

  /** Every node has its own fallback. */
  type Fallbacks = Node -> real

  function Choice(f: Forward, finalNode: Node, fallbacks: Fallbacks): Selection {
    SelectNext(f.candidates, finalNode, f.previous, f.ttl, fallbacks(f.node), f.pick)
  }

  function Cost(f: Forward, finalNode: Node, fallbacks: Fallbacks): real {
    OneWay(Choice(f, finalNode, fallbacks).averageRtt)
  }

  /** Each forward is made by the node that the one before it chose, with the budget that was left. */
  ghost predicate Consecutive(walk: seq<Forward>, finalNode: Node, fallbacks: Fallbacks) {
    forall i, j :: 0 <= i && j == i + 1 && j < |walk| ==>
      && walk[j].node == Choice(walk[i], finalNode, fallbacks).node
      && walk[j].previous == walk[i].node
      && walk[j].ttl == NextTtl(walk[i].ttl, Cost(walk[i], finalNode, fallbacks))
  }

  /** Consecutive forwards, all of them to nodes other than the final one. */
  ghost predicate Wanders(walk: seq<Forward>, finalNode: Node, fallbacks: Fallbacks) {
    && (forall i :: 0 <= i < |walk| ==> Choice(walk[i], finalNode, fallbacks).node != finalNode)
    && Consecutive(walk, finalNode, fallbacks)
  }

  ghost function Spent(walk: seq<Forward>, finalNode: Node, fallbacks: Fallbacks): real {
    if walk == [] then 0.0 else Cost(walk[0], finalNode, fallbacks) + Spent(walk[1..], finalNode, fallbacks)
  }

  /** A walk over nodes whose fallbacks are at least one millisecond. */
  lemma {:induction false} WalkIsBounded(walk: seq<Forward>, finalNode: Node, fallbacks: Fallbacks)
    requires forall i :: 0 <= i < |walk| ==> fallbacks(walk[i].node) >= 1.0
    requires walk != [] && Wanders(walk, finalNode, fallbacks)
    ensures |walk| < walk[0].ttl
    ensures Spent(walk, finalNode, fallbacks) < walk[0].ttl as real
  {
    var f := walk[0];
    ForwardSpendsBudget(f.candidates, finalNode, f.previous, f.ttl, fallbacks(f.node), f.pick);
    var rest := walk[1..];
    if rest == [] {
      assert Spent(walk, finalNode, fallbacks) == Cost(f, finalNode, fallbacks) + Spent(rest, finalNode, fallbacks);
    } else {
      assert rest[0] == walk[1];
      WalkIsBounded(rest, finalNode, fallbacks);
    }
  }

  /** What the next node gets: what half the round trip leaves, but never less than one, in whole milliseconds. */
  predicate IsLeft(ttl: int, rtt: real, next: int) {
    && 1 <= next
    && (next == 1 || next as real + rtt / 2.0 <= ttl as real)
    && (rtt >= 2.0 ==> ttl as real < next as real + rtt / 2.0 + 1.0)
    && (rtt < 2.0 ==> ttl <= next + 1)
  }

  /** No more is taken off than the rounding asks for: the budget left is fixed by the budget and the round trip. */
  lemma BudgetLeft(ttl: int, rtt: real)
    ensures IsLeft(ttl, rtt, NextTtl(ttl, OneWay(rtt)))
    ensures rtt < 2.0 ==> NextTtl(ttl, OneWay(rtt)) == if ttl > 1 then ttl - 1 else 1
    ensures forall next :: rtt >= 2.0 && IsLeft(ttl, rtt, next) ==> next == NextTtl(ttl, OneWay(rtt))
  {
  }

  /** The round trips of all forwards of a walk but the last, halved, each counted as a millisecond at least. */
  ghost function HalfTrips(walk: seq<Forward>, finalNode: Node, fallbacks: Fallbacks): real {
    if |walk| <= 1 then 0.0
    else
      var rtt := Choice(walk[0], finalNode, fallbacks).averageRtt;
      (if rtt >= 2.0 then rtt / 2.0 else 1.0) + HalfTrips(walk[1..], finalNode, fallbacks)
  }

  /**
   * No budget is lost: what the last node of a walk has is what the first had, less the halved round trips, up to one
   * millisecond of rounding for each forward; and it is not more, except that one millisecond is always left.
   */
  lemma {:induction false} BudgetIsNotLost(walk: seq<Forward>, finalNode: Node, fallbacks: Fallbacks)
    requires walk != [] && Consecutive(walk, finalNode, fallbacks)
    ensures var spent, last, forwards := HalfTrips(walk, finalNode, fallbacks), walk[|walk| - 1].ttl, |walk| - 1;
            && walk[0].ttl as real - spent - forwards as real <= last as real
            && (forwards > 0 ==> walk[0].ttl as real - spent - forwards as real < last as real)
            && (last > 1 || forwards == 0 ==> last as real <= walk[0].ttl as real - spent)
  {
    if |walk| > 1 {
      var rest := walk[1..];
      assert rest[0] == walk[1] && rest[|rest| - 1] == walk[|walk| - 1];
      BudgetIsNotLost(rest, finalNode, fallbacks);
      BudgetFalls(rest, finalNode, fallbacks, |rest| - 1);
      BudgetLeft(walk[0].ttl, Choice(walk[0], finalNode, fallbacks).averageRtt);
    }
  }

  /** One forward back to where the message came from, by a node that knows nobody. */
  function Return(node: Node, previous: Node): Forward {
    Forward(node, previous, 1, [], 0)
  }

  lemma ReturnGoesBack(node: Node, previous: Node, finalNode: Node, fallbacks: Fallbacks)
    requires fallbacks(node) < 1.0 && previous != finalNode
    ensures Choice(Return(node, previous), finalNode, fallbacks).node == previous
    ensures NextTtl(1, Cost(Return(node, previous), finalNode, fallbacks)) == 1
  {
    assert OneWay(fallbacks(node)) == 1.0;
  }

  function Bounce(a: Node, b: Node, i: int): Forward {
    if i % 2 == 0 then Return(a, b) else Return(b, a)
  }

  /**
   * Two nodes that know nobody else, with fallbacks below one millisecond: the message goes back and forth for ever.
   */
  lemma BounceWanders(a: Node, b: Node, finalNode: Node, n: nat, fallbacks: Fallbacks)
    requires fallbacks(a) < 1.0 && fallbacks(b) < 1.0 && a != finalNode && b != finalNode
    ensures Wanders(seq(n, i => Bounce(a, b, i)), finalNode, fallbacks)
    ensures forall i :: 0 <= i < n ==> Bounce(a, b, i).ttl == 1
  {
    ReturnGoesBack(a, b, finalNode, fallbacks);
    ReturnGoesBack(b, a, finalNode, fallbacks);
  }

  /**
   * Every walk makes fewer than `ttl` such forwards, whatever the nodes know, exactly when the fallback of every node
   * is at least one.
   */
  lemma WalksEndExactlyWhen(fallbacks: Fallbacks)
    ensures (forall n: Node :: fallbacks(n) >= 1.0) <==>
            forall walk: seq<Forward>, finalNode: Node :: walk != [] && Wanders(walk, finalNode, fallbacks) ==>
                |walk| < walk[0].ttl
  {
    if forall n: Node :: fallbacks(n) >= 1.0 {
      forall walk: seq<Forward>, finalNode: Node | walk != [] && Wanders(walk, finalNode, fallbacks)
        ensures |walk| < walk[0].ttl
      {
        WalkIsBounded(walk, finalNode, fallbacks);
      }
    } else {
      var n: Node :| fallbacks(n) < 1.0;
      ReturnGoesBack(n, n + 1, n + 2, fallbacks);
      var walk := [Return(n, n + 1)];
      assert walk != [] && Wanders(walk, n + 2, fallbacks) && !(|walk| < walk[0].ttl);
    }
  }

  // ---------------------------------------------------------------- walks without end

  /** A walk in which no node gets the message from itself. */
  ghost predicate Strolls(walk: seq<Forward>, finalNode: Node, fallbacks: Fallbacks) {
    Wanders(walk, finalNode, fallbacks) && forall i :: 0 <= i < |walk| ==> walk[i].node != walk[i].previous
  }

  ghost predicate HasStroll(length: nat, budget: int, finalNode: Node, fallbacks: Fallbacks) {
    exists walk: seq<Forward> :: |walk| == length + 1 && walk[0].ttl == budget && Strolls(walk, finalNode, fallbacks)
  }

  /** Some budget is never used up: walks that begin with it go on for any number of forwards. */
  ghost predicate Endless(fallbacks: Fallbacks) {
    exists budget, finalNode :: AllLengths(budget, finalNode, fallbacks)
  }

  ghost predicate AllLengths(budget: int, finalNode: Node, fallbacks: Fallbacks) {
    forall length: nat :: HasStroll(length, budget, finalNode, fallbacks)
  }

  lemma {:induction false} BudgetFalls(walk: seq<Forward>, finalNode: Node, fallbacks: Fallbacks, i: nat)
    requires Consecutive(walk, finalNode, fallbacks) && i < |walk|
    ensures walk[i].ttl <= 1 || walk[i].ttl <= walk[0].ttl - i
  {
    if i > 0 {
      BudgetFalls(walk, finalNode, fallbacks, i - 1);
      assert Cost(walk[i - 1], finalNode, fallbacks) >= 1.0;
    }
  }

  lemma NothingFits(candidates: seq<Candidate>, finalNode: Node, previous: Node, ttl: int)
    requires ttl <= 1
    ensures Eligibles(candidates, finalNode, previous, ttl) == []
  {
  }

  /** With the budget used up, only a fallback below one keeps the message from the final node, and it goes back. */
  lemma LastResort(f: Forward, finalNode: Node, fallbacks: Fallbacks)
    requires f.ttl <= 1 && Choice(f, finalNode, fallbacks).node != finalNode
    ensures Choice(f, finalNode, fallbacks).node == f.previous && fallbacks(f.node) < 1.0
  {
    NothingFits(f.candidates, finalNode, f.previous, f.ttl);
  }

  /** A stroll that is longer than its budget ends between two different nodes with fallbacks below one. */
  lemma LongStrollBounces(walk: seq<Forward>, finalNode: Node, fallbacks: Fallbacks, j: nat) returns (a: Node, b: Node)
    requires Strolls(walk, finalNode, fallbacks) && j + 1 < |walk| && walk[0].ttl - j <= 1
    ensures a != b && fallbacks(a) < 1.0 && fallbacks(b) < 1.0
  {
    BudgetFalls(walk, finalNode, fallbacks, j);
    BudgetFalls(walk, finalNode, fallbacks, j + 1);
    LastResort(walk[j], finalNode, fallbacks);
    LastResort(walk[j + 1], finalNode, fallbacks);
    a, b := walk[j].node, walk[j + 1].node;
  }

  lemma EndlessBounces(budget: int, finalNode: Node, fallbacks: Fallbacks) returns (a: Node, b: Node)
    requires AllLengths(budget, finalNode, fallbacks)
    ensures a != b && fallbacks(a) < 1.0 && fallbacks(b) < 1.0
  {
    var j: nat := if budget > 1 then budget - 1 else 0;
    assert HasStroll(j + 1, budget, finalNode, fallbacks);
    var walk: seq<Forward> :| |walk| == j + 1 + 1 && walk[0].ttl == budget && Strolls(walk, finalNode, fallbacks);
    a, b := LongStrollBounces(walk, finalNode, fallbacks, j);
  }

  lemma BounceStrolls(a: Node, b: Node, finalNode: Node, length: nat, fallbacks: Fallbacks)
    requires a != b && fallbacks(a) < 1.0 && fallbacks(b) < 1.0 && a != finalNode && b != finalNode
    ensures HasStroll(length, 1, finalNode, fallbacks)
  {
    BounceWanders(a, b, finalNode, length + 1, fallbacks);
    var walk := seq(length + 1, i => Bounce(a, b, i));
    assert |walk| == length + 1 && walk[0].ttl == 1 && Strolls(walk, finalNode, fallbacks);
  }

  /** Walks need not end at all exactly when two different nodes have fallbacks below one millisecond. */
  lemma EndlessExactlyWhen(fallbacks: Fallbacks)
    ensures Endless(fallbacks) <==>
            exists a: Node, b: Node :: a != b && fallbacks(a) < 1.0 && fallbacks(b) < 1.0
  {
    if Endless(fallbacks) {
      var budget, finalNode :| AllLengths(budget, finalNode, fallbacks);
      var a, b := EndlessBounces(budget, finalNode, fallbacks);
    }
    if a: Node, b: Node :| a != b && fallbacks(a) < 1.0 && fallbacks(b) < 1.0 {
      var finalNode := a + b + 1;
      forall length: nat ensures HasStroll(length, 1, finalNode, fallbacks) {
        BounceStrolls(a, b, finalNode, length, fallbacks);
      }
      assert AllLengths(1, finalNode, fallbacks);
    }
  }
}
