/**
 * Whole runs of the session manager: numbers are not reused, what is settled stays settled, and attempts are capped.
 */
module SessionRuns {
  import opened SessionManager

  // ---------------------------------------------------------------- numbers

  /** A message by the internal id of its session, which tells one session from a later one of the same name. */
  datatype Issue = Issue(id: int, sequence: int)

  /** What was issued is below the counter of its session, if that is still there. */
  ghost predicate Logged(m: Manager, issued: set<Issue>) {
    forall x :: x in issued ==> IsLogged(m, x)
  }

  ghost predicate IsLogged(m: Manager, x: Issue) {
    && x.id < m.nextId
    && (x.id in m.byId ==> m.byId[x.id].sessionId in m.links && x.sequence < m.links[m.byId[x.id].sessionId].next)
  }

  /** What an event issues. */
  ghost function Issues(m: Manager, e: Event): set<Issue> {
    if e.Preparing? && e.request.sessionId in m.bySessionId
    then {Issue(m.bySessionId[e.request.sessionId].id, LinkOf(m, m.bySessionId[e.request.sessionId]).next)}
    else {}
  }

  lemma IssuedStaysLogged(m: Manager, e: Event, x: Issue)
    requires Consistent(m) && IsLogged(m, x)
    ensures IsLogged(Apply(m, e), x)
  {
  }

  /** A number given to a message is new for its session, however the run went on before. */
  lemma NumbersAreNew(m: Manager, e: Event, issued: set<Issue>)
    requires Consistent(m) && Logged(m, issued)
    ensures Issues(m, e) !! issued
    ensures Logged(Apply(m, e), issued + Issues(m, e))
  {
    forall x | x in issued ensures IsLogged(Apply(m, e), x) {
      IssuedStaysLogged(m, e, x);
    }
  }

  function Run(events: seq<Event>): Manager {
    if events == [] then EMPTY_MANAGER else Apply(Run(events[..|events| - 1]), events[|events| - 1])
  }

  ghost function Issued(events: seq<Event>): set<Issue> {
    if events == [] then {}
    else
      var init := events[..|events| - 1];
      Issued(init) + Issues(Run(init), events[|events| - 1])
  }

  lemma {:induction false} RunIsConsistent(events: seq<Event>)
    ensures Consistent(Run(events)) && Logged(Run(events), Issued(events))
  {
    if events != [] {
      var init, e := events[..|events| - 1], events[|events| - 1];
      RunIsConsistent(init);
      ApplyKeepsConsistent(Run(init), e);
      NumbersAreNew(Run(init), e, Issued(init));
    }
  }

  // ---------------------------------------------------------------- numbers by name

  predicate Live(m: Manager, name: string) {
    name in m.bySessionId
  }

  /** The number that the next message on a live name gets. */
  function NextNumber(m: Manager, name: string): int
    requires Live(m, name)
  {
    LinkOf(m, m.bySessionId[name]).next
  }

  predicate IsPrepare(e: Event, name: string) {
    e.Preparing? && e.request.sessionId == name
  }

  predicate IsCreate(e: Event, name: string) {
    e.Creating? && e.sessionId == name
  }

  /** Event i of the run prepares a message on the name and succeeds. */
  ghost predicate Prepares(events: seq<Event>, i: nat, name: string) {
    i < |events| && IsPrepare(events[i], name) && Live(Run(events[..i]), name)
  }

  ghost function NumberAt(events: seq<Event>, i: nat, name: string): int
    requires Prepares(events, i, name)
  {
    NextNumber(Run(events[..i]), name)
  }

  /** That is the number the message has. */
  lemma NumberIsGiven(m: Manager, request: Request)
    requires Live(m, request.sessionId)
    ensures Prepare(m, request).Ok? && Prepare(m, request).value.1.message.sequence == NextNumber(m, request.sessionId)
  {
  }

  /** How many messages were prepared on a name since its session was made. */
  function PreparedSince(events: seq<Event>, name: string): nat {
    if events == [] then 0
    else
      var init, e := events[..|events| - 1], events[|events| - 1];
      if e == Deleting(name) || (IsCreate(e, name) && !Live(Run(init), name)) then 0
      else if IsPrepare(e, name) && Live(Run(init), name) then PreparedSince(init, name) + 1
      else PreparedSince(init, name)
  }

  lemma NumberAfter(m: Manager, e: Event, name: string)
    requires Consistent(m) && Live(Apply(m, e), name)
    ensures Live(m, name) <==> !IsCreate(e, name) || Live(m, name)
    ensures !Live(m, name) ==> NextNumber(Apply(m, e), name) == 1
    ensures Live(m, name) ==> NextNumber(Apply(m, e), name) == NextNumber(m, name) + One(IsPrepare(e, name))
  {
  }

  /** The number is the count of messages since the session of that name was made, and one. */
  lemma {:induction false} NumberIsCount(events: seq<Event>, name: string)
    requires Live(Run(events), name)
    ensures NextNumber(Run(events), name) == PreparedSince(events, name) + 1
  {
    var init, e := events[..|events| - 1], events[|events| - 1];
    RunIsConsistent(init);
    NumberAfter(Run(init), e, name);
    if Live(Run(init), name) {
      NumberIsCount(init, name);
    }
  }

  ghost predicate DeletedBetween(events: seq<Event>, i: nat, j: nat, name: string) {
    exists k :: i < k < j && k < |events| && events[k] == Deleting(name)
  }

  ghost predicate MadeBetween(events: seq<Event>, i: nat, j: nat, name: string) {
    exists k :: i < k < j && k < |events| && IsCreate(events[k], name)
  }

  lemma RunUpTo(events: seq<Event>, j: nat)
    requires j < |events|
    ensures Run(events[..j + 1]) == Apply(Run(events[..j]), events[j]) && Consistent(Run(events[..j]))
  {
    assert events[..j + 1][..j] == events[..j];
    RunIsConsistent(events[..j]);
  }

  /** Without a deletion the name stays live and its numbers only grow. */
  lemma {:induction false} NumbersGrow(events: seq<Event>, i: nat, j: nat, name: string)
    requires Prepares(events, i, name) && i < j <= |events| && !DeletedBetween(events, i, j, name)
    ensures Live(Run(events[..j]), name) && NextNumber(Run(events[..j]), name) > NumberAt(events, i, name)
    decreases j
  {
    RunUpTo(events, j - 1);
    if i < j - 1 {
      assert !DeletedBetween(events, i, j - 1, name);
      NumbersGrow(events, i, j - 1, name);
    }
    NumberGrows(Run(events[..j - 1]), events[j - 1], name);
  }

  lemma NumberGrows(m: Manager, e: Event, name: string)
    requires Consistent(m) && Live(m, name) && e != Deleting(name)
    ensures Live(Apply(m, e), name)
    ensures NextNumber(Apply(m, e), name) == NextNumber(m, name) + One(IsPrepare(e, name))
  {
  }

  /** A deleted name is not live before it is made again. */
  lemma {:induction false} DeadUntilMade(events: seq<Event>, k: nat, j: nat, name: string)
    requires k < j <= |events| && events[k] == Deleting(name) && !MadeBetween(events, k, j, name)
    ensures !Live(Run(events[..j]), name)
    decreases j
  {
    RunUpTo(events, j - 1);
    if k < j - 1 {
      assert !MadeBetween(events, k, j - 1, name);
      DeadUntilMade(events, k, j - 1, name);
      assert !IsCreate(events[j - 1], name);
      OnlyCreatingMakesLive(Run(events[..j - 1]), events[j - 1], name);
    }
  }

  lemma OnlyCreatingMakesLive(m: Manager, e: Event, name: string)
    requires !Live(m, name) && !IsCreate(e, name)
    ensures !Live(Apply(m, e), name)
  {
  }

  /** Two messages on one name have the same number only if the session was deleted and made again in between. */
  lemma SameNumberNeedsNewSession(events: seq<Event>, i: nat, j: nat, name: string) returns (k: nat, l: nat)
    requires i < j && Prepares(events, i, name) && Prepares(events, j, name)
    requires NumberAt(events, i, name) == NumberAt(events, j, name)
    ensures i < k < l < j && events[k] == Deleting(name) && IsCreate(events[l], name)
  {
    if !DeletedBetween(events, i, j, name) {
      NumbersGrow(events, i, j, name);
    }
    k :| i < k < j && k < |events| && events[k] == Deleting(name);
    if !MadeBetween(events, k, j, name) {
      DeadUntilMade(events, k, j, name);
    }
    l :| k < l < j && l < |events| && IsCreate(events[l], name);
  }

  lemma {:induction false} SomethingWasPrepared(events: seq<Event>, j: nat, name: string) returns (i: nat)
    requires j <= |events| && PreparedSince(events[..j], name) > 0
    ensures i < j && Prepares(events, i, name)
  {
    assert events[..j][..j - 1] == events[..j - 1];
    if PreparedSince(events[..j - 1], name) > 0 {
      i := SomethingWasPrepared(events, j - 1, name);
    } else {
      i := j - 1;
    }
  }

  /** Number 1 is the first that a name gives. */
  lemma {:induction false} OneWasGiven(events: seq<Event>, j: nat, name: string) returns (i: nat)
    requires Prepares(events, j, name)
    ensures i <= j && Prepares(events, i, name) && NumberAt(events, i, name) == 1
    decreases j
  {
    NumberIsCount(events[..j], name);
    if PreparedSince(events[..j], name) == 0 {
      i := j;
    } else {
      var before := SomethingWasPrepared(events, j, name);
      i := OneWasGiven(events, before, name);
    }
  }

  /** Once a session is deleted and made again under its name, the next number is 1 again, which was given before. */
  lemma NamesReuseNumbers(events: seq<Event>, j: nat, k: nat, l: nat, name: string) returns (i: nat)
    requires Prepares(events, j, name) && j < k < l < |events|
    requires events[k] == Deleting(name) && IsCreate(events[l], name) && !MadeBetween(events, k, l, name)
    ensures Live(Run(events[..l + 1]), name) && NextNumber(Run(events[..l + 1]), name) == 1
    ensures i <= j && Prepares(events, i, name) && NumberAt(events, i, name) == 1
  {
    DeadUntilMade(events, k, l, name);
    RunUpTo(events, l);
    NumberAfter(Run(events[..l]), events[l], name);
    i := OneWasGiven(events, j, name);
  }

  // ---------------------------------------------------------------- what is settled

  ghost predicate PendingIssue(m: Manager, x: Issue) {
    && x.id in m.byId && m.byId[x.id].sessionId in m.links
    && var out := m.links[m.byId[x.id].sessionId].outbound;
    x.sequence in out && out[x.sequence].Pending()
  }

  /** A message that was issued and is not pending never becomes pending again. */
  lemma SettledStaysSettled(m: Manager, e: Event, x: Issue)
    requires Consistent(m) && IsLogged(m, x) && !PendingIssue(m, x)
    ensures !PendingIssue(Apply(m, e), x)
  {
  }

  function RunFrom(m: Manager, events: seq<Event>): Manager {
    if events == [] then m else Apply(RunFrom(m, events[..|events| - 1]), events[|events| - 1])
  }

  /** Nor is it ever due again, in any continuation. */
  lemma {:induction false} SettledForever(m: Manager, events: seq<Event>, x: Issue)
    requires Consistent(m) && IsLogged(m, x) && !PendingIssue(m, x)
    ensures Consistent(RunFrom(m, events)) && IsLogged(RunFrom(m, events), x) && !PendingIssue(RunFrom(m, events), x)
  {
    if events != [] {
      var init, e := events[..|events| - 1], events[|events| - 1];
      SettledForever(m, init, x);
      ApplyKeepsConsistent(RunFrom(m, init), e);
      IssuedStaysLogged(RunFrom(m, init), e, x);
      SettledStaysSettled(RunFrom(m, init), e, x);
    }
  }

  lemma SettledIsNotDue(m: Manager, x: Issue, now: int, retry: (string, int) -> int)
    requires x.id in m.byId && !PendingIssue(m, x)
    ensures !DueAt(m, Ticket(m.byId[x.id].sessionId, x.sequence), now, retry)
  {
  }

  // ---------------------------------------------------------------- how often a message is sent

  /**
   * The manager, the session names used so far, and the sends under way: first ones, begun by preparing a message, and
   * repeated ones, begun by a scan. A send is counted when it ends, so a scan can find a message whose first send is
   * still under way.
   */
  datatype World = World(m: Manager, used: set<string>, first: set<Ticket>, again: set<Ticket>)

  const FRESH := World(EMPTY_MANAGER, {}, {}, {})

  ghost function DueTickets(m: Manager, now: int, retry: (string, int) -> int): (r: set<Ticket>)
    ensures forall t :: t in r <==> DueAt(m, t, now, retry)
  {
    set s, q | s in m.links && q in m.links[s].outbound && IsDue(m.links[s].outbound[q], now, retry(s, q)) ::
        Ticket(s, q)
  }

  /**
   * Names are not used twice, a limit allows one attempt, sends end once, and a scan waits for the sends of the last
   * one.
   */
  ghost predicate Possible(w: World, e: Event) {
    match e
    case Creating(s, _) => s !in w.used
    case Preparing(r) => r.maxAttempts >= 1
    case Sending(t, _, first) => t in if first then w.first else w.again
    case Dropping(t, first) => t in if first then w.first else w.again
    case Scanning(_, _) => w.again == {}
    case _ => true
  }

  ghost function Begun(w: World, e: Event): set<Ticket> {
    if e.Preparing? && e.request.sessionId in w.m.bySessionId
    then {Ticket(e.request.sessionId, LinkOf(w.m, w.m.bySessionId[e.request.sessionId]).next)} else {}
  }

  ghost function Step(w: World, e: Event): World {
    var m := Apply(w.m, e);
    match e
    case Creating(s, _) => World(m, w.used + {s}, w.first, w.again)
    case Preparing(_) => World(m, w.used, w.first + Begun(w, e), w.again)
    case Sending(t, _, first) => Ended(w, m, t, first)
    case Dropping(t, first) => Ended(w, m, t, first)
    case Scanning(now, retry) => World(m, w.used, w.first, DueTickets(w.m, now, retry))
    case _ => w.(m := m)
  }

  ghost function Ended(w: World, m: Manager, t: Ticket, first: bool): World {
    if first then World(m, w.used, w.first - {t}, w.again) else World(m, w.used, w.first, w.again - {t})
  }

  /** A send under way is for a number that was issued. */
  ghost predicate KnownTicket(w: World, t: Ticket) {
    && t.sessionId in w.used
    && (t.sessionId in w.m.bySessionId ==> t.sessionId in w.m.links && t.sequence < w.m.links[t.sessionId].next)
  }

  ghost predicate Known(w: World) {
    && Consistent(w.m)
    && (forall s :: s in w.m.bySessionId ==> s in w.used)
    && (forall t :: t in w.first + w.again ==> KnownTicket(w, t))
  }

  function One(b: bool): int {
    if b then 1 else 0
  }

  /** Attempts counted and attempts under way. */
  ghost function Weight(w: World, t: Ticket): int
    requires Has(w.m, t)
  {
    At(w.m, t).attempts + One(t in w.first) + One(t in w.again)
  }

  ghost predicate Capped(w: World, slack: int) {
    forall t :: Has(w.m, t) ==> Weight(w, t) <= At(w.m, t).maxAttempts + slack
  }

  /** The scan lists no message whose first send is still under way. */
  ghost predicate NoOverlap(w: World, e: Event) {
    e.Scanning? ==> DueTickets(w.m, e.now, e.retry) !! w.first
  }

  lemma KnownStaysKnown(w: World, e: Event, t: Ticket)
    requires Known(w) && Possible(w, e) && KnownTicket(w, t)
    ensures KnownTicket(Step(w, e), t)
  {
  }

  lemma NewIsKnown(w: World, e: Event, t: Ticket)
    requires Known(w) && Possible(w, e) && t in Step(w, e).first + Step(w, e).again && t !in w.first + w.again
    ensures KnownTicket(Step(w, e), t)
  {
  }

  lemma StepKeepsKnown(w: World, e: Event)
    requires Known(w) && Possible(w, e)
    ensures Known(Step(w, e))
  {
    ApplyKeepsConsistent(w.m, e);
    forall t | t in Step(w, e).first + Step(w, e).again ensures KnownTicket(Step(w, e), t) {
      if t in w.first + w.again {
        KnownStaysKnown(w, e, t);
      } else {
        NewIsKnown(w, e, t);
      }
    }
  }

  /** What one event does to a message that was there. */
  lemma MessageAfter(m: Manager, e: Event, t: Ticket)
    requires Consistent(m) && Has(m, t) && Has(Apply(m, e), t)
    ensures var x, y := At(m, t), At(Apply(m, e), t);
            && y.maxAttempts == x.maxAttempts && (y.Pending() ==> x.Pending())
            && y.attempts == x.attempts + One(e.Sending? && e.ticket == t && x.Pending())
  {
  }

  /** A message that was not there is new. */
  lemma MessageIsNew(m: Manager, e: Event, t: Ticket)
    requires Consistent(m) && !Has(m, t) && Has(Apply(m, e), t)
    ensures e.Preparing? && e.request.sessionId == t.sessionId && t.sessionId in m.bySessionId
    ensures t.sequence == LinkOf(m, m.bySessionId[t.sessionId]).next
    ensures At(Apply(m, e), t).attempts == 0 && At(Apply(m, e), t).maxAttempts == e.request.maxAttempts
  {
  }

  /** How one event moves the sends under way of one message. */
  lemma UnderWayAfter(w: World, e: Event, t: Ticket)
    requires Possible(w, e)
    ensures var v := Step(w, e);
            && One(t in v.first) == One(t in w.first) + One(t in Begun(w, e) && t !in w.first)
                                    - One((e.Sending? || e.Dropping?) && e.first && e.ticket == t)
            && One(t in v.again) == if e.Scanning? then One(DueAt(w.m, t, e.now, e.retry))
                                    else One(t in w.again) - One((e.Sending? || e.Dropping?) && !e.first
                                        && e.ticket == t)
  {
  }

  /** What one event does to one message that is there afterwards. */
  lemma StepKeepsWeight(w: World, e: Event, t: Ticket, slack: int)
    requires Known(w) && Possible(w, e) && Capped(w, slack) && 0 <= slack <= 1
    requires slack == 0 ==> NoOverlap(w, e)
    requires Has(Step(w, e).m, t)
    ensures Weight(Step(w, e), t) <= At(Step(w, e).m, t).maxAttempts + slack
  {
    UnderWayAfter(w, e, t);
    if Has(w.m, t) {
      MessageAfter(w.m, e, t);
      assert Weight(w, t) <= At(w.m, t).maxAttempts + slack;
      assert KnownTicket(w, t) && t !in Begun(w, e);
    } else {
      MessageIsNew(w.m, e, t);
      assert !KnownTicket(w, t);
    }
  }

  lemma StepKeepsCap(w: World, e: Event, slack: int)
    requires Known(w) && Possible(w, e) && Capped(w, slack) && 0 <= slack <= 1
    requires slack == 0 ==> NoOverlap(w, e)
    ensures Capped(Step(w, e), slack)
  {
    forall t | Has(Step(w, e).m, t) ensures Weight(Step(w, e), t) <= At(Step(w, e).m, t).maxAttempts + slack {
      StepKeepsWeight(w, e, t, slack);
    }
  }

  ghost function Worlds(events: seq<Event>): World {
    if events == [] then FRESH else Step(Worlds(events[..|events| - 1]), events[|events| - 1])
  }

  ghost predicate AllPossible(events: seq<Event>) {
    forall i :: 0 <= i < |events| ==> Possible(Worlds(events[..i]), events[i])
  }

  ghost predicate NeverOverlapping(events: seq<Event>) {
    forall i :: 0 <= i < |events| ==> NoOverlap(Worlds(events[..i]), events[i])
  }

  lemma {:induction false} RunIsCapped(events: seq<Event>, slack: int)
    requires AllPossible(events) && 0 <= slack <= 1 && (slack == 0 ==> NeverOverlapping(events))
    ensures Known(Worlds(events)) && Capped(Worlds(events), slack)
  {
    if events != [] {
      var n, init := |events| - 1, events[..|events| - 1];
      assert forall i :: 0 <= i < n ==> init[..i] == events[..i] && init[i] == events[i];
      RunIsCapped(init, slack);
      StepKeepsKnown(Worlds(init), events[n]);
      StepKeepsCap(Worlds(init), events[n], slack);
    }
  }

  /**
   * In every run attempts stay within the limit and one; they stay within the limit if no scan comes between preparing
   * a message and the end of its first send.
   */
  lemma AttemptsAreCapped(events: seq<Event>, t: Ticket)
    requires AllPossible(events) && Has(Worlds(events).m, t)
    ensures At(Worlds(events).m, t).attempts <= At(Worlds(events).m, t).maxAttempts + 1
    ensures NeverOverlapping(events) ==> At(Worlds(events).m, t).attempts <= At(Worlds(events).m, t).maxAttempts
  {
    RunIsCapped(events, 1);
    if NeverOverlapping(events) {
      RunIsCapped(events, 0);
    }
  }

  // ---------------------------------------------------------------- when the limit can be exceeded

  ghost predicate PossibleFrom(w: World, events: seq<Event>)
    decreases |events|
  {
    events == [] || (Possible(w, events[0]) && PossibleFrom(Step(w, events[0]), events[1..]))
  }

  ghost function WorldFrom(w: World, events: seq<Event>): World
    decreases |events|
  {
    if events == [] then w else WorldFrom(Step(w, events[0]), events[1..])
  }

  lemma PossibleFirst(w: World, e: Event, events: seq<Event>)
    requires Possible(w, e) && PossibleFrom(Step(w, e), events)
    ensures PossibleFrom(w, [e] + events) && WorldFrom(w, [e] + events) == WorldFrom(Step(w, e), events)
  {
    assert ([e] + events)[1..] == events;
  }

  ghost predicate OverByOne(w: World, t: Ticket) {
    Has(w.m, t) && At(w.m, t).attempts == At(w.m, t).maxAttempts + 1
  }

  /** A pending message whose first send is under way. */
  ghost predicate FirstUnderWay(w: World, t: Ticket) {
    Has(w.m, t) && At(w.m, t).Pending() && t in w.first
  }

  /** A send that ends is counted. */
  lemma SendingCounts(w: World, t: Ticket, now: int, first: bool)
    requires Has(w.m, t) && At(w.m, t).Pending() && t in if first then w.first else w.again
    ensures var v := Step(w, Sending(t, now, first));
            && Possible(w, Sending(t, now, first)) && Has(v.m, t) && At(v.m, t).Pending()
            && At(v.m, t).attempts == At(w.m, t).attempts + 1 && At(v.m, t).maxAttempts == At(w.m, t).maxAttempts
            && (!first ==> v.first == w.first && v.again == w.again - {t})
  {
  }

  /** A scan at a time when the message is due lists it. */
  lemma ScanningLists(w: World, t: Ticket) returns (e: Event)
    requires FirstUnderWay(w, t) && At(w.m, t).attempts < At(w.m, t).maxAttempts && w.again == {}
    ensures Possible(w, e) && FirstUnderWay(Step(w, e), t) && t in Step(w, e).again
    ensures At(Step(w, e).m, t).attempts == At(w.m, t).attempts
        && At(Step(w, e).m, t).maxAttempts == At(w.m, t).maxAttempts
  {
    var x := At(w.m, t);
    var now := if x.lastSentAt.Some? then x.lastSentAt.value else 0;
    var retry := (s: string, q: int) => 0;
    e := Scanning(now, retry);
    assert DueAt(w.m, t, now, retry);
  }

  /** Scans during a first send can use up every attempt before that send is counted: the limit is exceeded by one. */
  lemma {:induction false} OverlapExceedsTheLimit(w: World, t: Ticket) returns (events: seq<Event>)
    requires FirstUnderWay(w, t) && At(w.m, t).attempts <= At(w.m, t).maxAttempts
    ensures PossibleFrom(w, events) && OverByOne(WorldFrom(w, events), t)
    decreases At(w.m, t).maxAttempts - At(w.m, t).attempts, |w.again|
  {
    if At(w.m, t).attempts == At(w.m, t).maxAttempts {
      var e := Sending(t, 0, true);
      SendingCounts(w, t, 0, true);
      PossibleFirst(w, e, []);
      events := [e] + [];
    } else if w.again == {} {
      var scan := ScanningLists(w, t);
      var v, send := Step(w, scan), Sending(t, 0, false);
      SendingCounts(v, t, 0, false);
      var rest := OverlapExceedsTheLimit(Step(v, send), t);
      PossibleFirst(v, send, rest);
      PossibleFirst(w, scan, [send] + rest);
      events := [scan] + ([send] + rest);
    } else {
      var other :| other in w.again;
      var e := Dropping(other, false);
      var rest := OverlapExceedsTheLimit(Step(w, e), t);
      PossibleFirst(w, e, rest);
      events := [e] + rest;
    }
  }

  ghost predicate CanExceed(w: World, t: Ticket) {
    exists events :: PossibleFrom(w, events)
      && Has(WorldFrom(w, events).m, t)
      && At(WorldFrom(w, events).m, t).attempts > At(WorldFrom(w, events).m, t).maxAttempts
  }

  /**
   * What keeps a message within its limit whatever happens: settled, or no first send under way and within the limit.
   */
  ghost predicate Safe(w: World, t: Ticket) {
    && KnownTicket(w, t)
    && (Has(w.m, t) ==>
          && At(w.m, t).attempts <= At(w.m, t).maxAttempts
          && (At(w.m, t).Pending() ==> t !in w.first && Weight(w, t) <= At(w.m, t).maxAttempts))
  }

  lemma SafeStaysSafe(w: World, e: Event, t: Ticket)
    requires Known(w) && Possible(w, e) && Safe(w, t)
    ensures Safe(Step(w, e), t)
  {
    KnownStaysKnown(w, e, t);
    if Has(Step(w, e).m, t) {
      if !Has(w.m, t) {
        MessageIsNew(w.m, e, t);
        assert false;
      }
      MessageAfter(w.m, e, t);
      UnderWayAfter(w, e, t);
      assert t !in Begun(w, e);
    }
  }

  lemma {:induction false} SafeIsSafe(w: World, events: seq<Event>, t: Ticket)
    requires Known(w) && Safe(w, t) && PossibleFrom(w, events)
    ensures Safe(WorldFrom(w, events), t)
    decreases |events|
  {
    if events != [] {
      StepKeepsKnown(w, events[0]);
      SafeStaysSafe(w, events[0], t);
      SafeIsSafe(Step(w, events[0]), events[1..], t);
    }
  }

  /**
   * Some continuation takes a message over its limit if and only if it is over it already, or is pending and its first
   * send is under way or what is under way would take it over.
   */
  lemma ExceedsExactlyWhen(w: World, t: Ticket)
    requires Known(w) && Has(w.m, t)
    ensures CanExceed(w, t) <==>
            || At(w.m, t).attempts > At(w.m, t).maxAttempts
            || (At(w.m, t).Pending() && (t in w.first || Weight(w, t) > At(w.m, t).maxAttempts))
  {
    var x := At(w.m, t);
    if x.attempts > x.maxAttempts {
      assert PossibleFrom(w, []) && WorldFrom(w, []) == w;
    } else if x.Pending() && t in w.first {
      var events := OverlapExceedsTheLimit(w, t);
      assert OverByOne(WorldFrom(w, events), t);
    } else if x.Pending() && Weight(w, t) > x.maxAttempts {
      SendingCounts(w, t, 0, false);
      PossibleFirst(w, Sending(t, 0, false), []);
    } else {
      forall events | PossibleFrom(w, events) && Has(WorldFrom(w, events).m, t)
        ensures At(WorldFrom(w, events).m, t).attempts <= At(WorldFrom(w, events).m, t).maxAttempts
      {
        SafeIsSafe(w, events, t);
      }
    }
  }

  /** Between scans, for a message within its limit: exactly while its first send is under way. */
  lemma ExceedsExactlyDuringFirstSend(w: World, t: Ticket)
    requires Known(w) && Has(w.m, t) && w.again == {} && At(w.m, t).attempts <= At(w.m, t).maxAttempts
    ensures CanExceed(w, t) <==> At(w.m, t).Pending() && t in w.first
  {
    ExceedsExactlyWhen(w, t);
  }
}
