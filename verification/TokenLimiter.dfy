/** The sliding-window token limiter (backend/services/llm.py), in integer milliseconds.
    The deque is compared with a ledger of everything ever reserved and billed, over all interleavings of
    admission checks and settlements. */
module TokenLimiter {
  import opened Prelude

  const WINDOW_MS := 60000
  const SLACK_MS := 50
  const MAX_SLEEP_MS := 1000

  /** An entry of the deque. */
  datatype Event = Event(at: int, tokens: nat)

  /** What one call did: its reservation and, once settled, the billed amount. A settlement whose reservation
      has left the deque is a new bill with no reservation. */
  datatype Bill = Bill(at: int, reserved: nat, billed: Option<nat>)

  /** The deque, the events pruned from it, the ledger, and the time of the last step. */
  datatype State = State(events: seq<Event>, gone: seq<Event>, bills: seq<Bill>, now: int)

  function Total(events: seq<Event>): nat {
    if events == [] then 0 else Total(events[..|events| - 1]) + events[|events| - 1].tokens
  }

  predicate Expired(e: Event, now: int) {
    now - e.at >= WINDOW_MS
  }

  /** How many events the pruning loop pops. */
  function ExpiredPrefix(events: seq<Event>, now: int): (n: nat)
    ensures n <= |events|
  {
    if events != [] && Expired(events[0], now) then 1 + ExpiredPrefix(events[1..], now) else 0
  }

  function Prune(s: State, now: int): State {
    var n := ExpiredPrefix(s.events, now);
    State(s.events[n..], s.gone + s.events[..n], s.bills, now)
  }

  function Clamp(tokens: nat, limit: nat): nat {
    if tokens < limit then tokens else limit
  }

  /** `_used(now) + tokens <= limit`, after pruning. */
  predicate Admits(s: State, limit: nat, now: int, tokens: nat) {
    Total(Prune(s, now).events) + Clamp(tokens, limit) <= limit
  }

  function IndexOf(events: seq<Event>, entry: Event): (i: Option<nat>)
    ensures i.Some? ==> i.value < |events| && events[i.value] == entry
    ensures i.None? ==> entry !in events
  {
    if events == [] then None
    else if events[0] == entry then Some(0)
    else match IndexOf(events[1..], entry)
         case None => None
         case Some(i) => Some(i + 1)
  }

  // ----- Atomic steps -----

  /** One admission check of `reserve`, or one `settle` of the call in ledger line `line`. */
  datatype Step = Check(now: int, tokens: nat) | Settle(now: int, line: nat, actual: nat)

  predicate Enabled(s: State, step: Step) {
    && s.now <= step.now
    && (step.Settle? ==> step.line < |s.bills| && s.bills[step.line].billed.None?)
  }

  function Reservation(b: Bill): Event {
    Event(b.at, b.reserved)
  }

  /** The reservation of this line can still be found in the deque. */
  predicate InQueue(s: State, line: nat)
    requires line < |s.bills|
  {
    IndexOf(s.events, Reservation(s.bills[line])).Some?
  }

  function Next(s: State, limit: nat, step: Step): State
    requires Enabled(s, step)
  {
    match step
    case Check(now, tokens) =>
      var p := Prune(s, now);
      if Admits(s, limit, now, tokens) then
        var t := Clamp(tokens, limit);
        p.(events := p.events + [Event(now, t)], bills := p.bills + [Bill(now, t, None)])
      else p
    case Settle(now, line, actual) =>
      var b := s.bills[line];
      match IndexOf(s.events, Reservation(b))
      case Some(i) =>
        s.(now := now, events := s.events[i := Event(b.at, actual)],
           bills := s.bills[line := b.(billed := Some(actual))])
      case None =>
        s.(now := now, events := s.events + [Event(now, actual)],
           bills := s.bills[line := b.(billed := Some(b.reserved))] + [Bill(now, 0, Some(actual))])
  }

  // ----- Window sums -----

  predicate InWindow(at: int, t: int) {
    t - WINDOW_MS < at <= t
  }

  function WindowSum(events: seq<Event>, t: int): nat {
    if events == [] then 0
    else
      var last := events[|events| - 1];
      WindowSum(events[..|events| - 1], t) + if InWindow(last.at, t) then last.tokens else 0
  }

  /** The amount the limiter holds for a call: the reservation until it is settled. */
  function Amount(b: Bill): nat {
    if b.billed.Some? then b.billed.value else b.reserved
  }

  /** The part of a bill that its reservation covers, and the part beyond it. */
  function Covered(b: Bill): nat {
    if Amount(b) < b.reserved then Amount(b) else b.reserved
  }

  function Beyond(b: Bill): nat {
    Amount(b) - Covered(b)
  }

  function Sum(bills: seq<Bill>, part: Bill -> nat, t: int): nat {
    if bills == [] then 0
    else
      var last := bills[|bills| - 1];
      Sum(bills[..|bills| - 1], part, t) + if InWindow(last.at, t) then part(last) else 0
  }

  function Held(bills: seq<Bill>): (r: seq<Event>)
    ensures |r| == |bills|
  {
    seq(|bills|, i requires 0 <= i < |bills| => Event(bills[i].at, Amount(bills[i])))
  }

  // ----- The invariant -----

  /** Stamps never decrease, and none is later than `now`. */
  ghost predicate Chronological(stamps: seq<int>, now: int) {
    stamps == [] || (stamps[|stamps| - 1] <= now && Chronological(stamps[..|stamps| - 1], stamps[|stamps| - 1]))
  }

  function Stamps(events: seq<Event>): (r: seq<int>)
    ensures |r| == |events|
  {
    seq(|events|, i requires 0 <= i < |events| => events[i].at)
  }

  function BillStamps(bills: seq<Bill>): (r: seq<int>)
    ensures |r| == |bills|
  {
    seq(|bills|, i requires 0 <= i < |bills| => bills[i].at)
  }

  /** At the moment each line was written, the covered amounts in its window fitted the limit. */
  ghost predicate EachFitted(bills: seq<Bill>, limit: nat) {
    bills == [] ||
    (&& Sum(bills, Covered, bills[|bills| - 1].at) <= limit
     && EachFitted(bills[..|bills| - 1], limit))
  }

  ghost predicate AllExpired(events: seq<Event>, now: int) {
    forall i :: 0 <= i < |events| ==> Expired(events[i], now)
  }

  /** The deque and what was pruned from it are, up to order, the ledger; everything is in order of time; only
      expired events were pruned; and every line fitted when it was written. */
  ghost predicate Inv(s: State, limit: nat) {
    && multiset(Held(s.bills)) == multiset(s.gone + s.events)
    && Chronological(BillStamps(s.bills), s.now)
    && Chronological(Stamps(s.events), s.now)
    && AllExpired(s.gone, s.now)
    && EachFitted(s.bills, limit)
  }

  const EMPTY := State([], [], [], 0)

  lemma {:induction false} WindowSumConcat(a: seq<Event>, b: seq<Event>, t: int)
    ensures WindowSum(a + b, t) == WindowSum(a, t) + WindowSum(b, t)
  {
    if b == [] {
      assert a + b == a;
    } else {
      assert (a + b)[..|a + b| - 1] == a + b[..|b| - 1];
      WindowSumConcat(a, b[..|b| - 1], t);
    }
  }

  lemma {:induction false} RemoveOne<T>(b: seq<T>, k: nat)
    requires k < |b|
    ensures multiset(b[..k] + b[k + 1..]) == multiset(b) - multiset{b[k]}
  {
    assert b == b[..k] + [b[k]] + b[k + 1..];
  }

  lemma {:induction false} WindowSumRemove(b: seq<Event>, k: nat, t: int)
    requires k < |b|
    ensures WindowSum(b, t) == WindowSum(b[..k] + b[k + 1..], t) + if InWindow(b[k].at, t) then b[k].tokens else 0
  {
    var left, right := b[..k], b[k + 1..];
    assert b == left + ([b[k]] + right);
    WindowSumConcat(left, right, t);
    WindowSumConcat(left, [b[k]] + right, t);
    WindowSumConcat([b[k]], right, t);
    assert [b[k]][..0] == [];
  }

  lemma {:induction false} SameRest<T>(init: seq<T>, last: T, b: seq<T>) returns (k: nat)
    requires multiset(init + [last]) == multiset(b)
    ensures k < |b| && b[k] == last && multiset(init) == multiset(b[..k] + b[k + 1..])
  {
    assert multiset(init + [last]) == multiset(init) + multiset{last};
    assert last in multiset(b);
    k :| 0 <= k < |b| && b[k] == last;
    RemoveOne(b, k);
  }

  /** The window sum depends on the multiset of events only. */
  lemma {:induction false} WindowSumPermutes(a: seq<Event>, b: seq<Event>, t: int)
    requires multiset(a) == multiset(b)
    ensures WindowSum(a, t) == WindowSum(b, t)
    decreases |a|
  {
    if a == [] {
      assert |b| == |multiset(b)| == 0;
    } else {
      var init, last := a[..|a| - 1], a[|a| - 1];
      assert a == init + [last];
      var k := SameRest(init, last, b);
      WindowSumPermutes(init, b[..k] + b[k + 1..], t);
      WindowSumRemove(b, k, t);
    }
  }

  lemma {:induction false} HeldSum(bills: seq<Bill>, t: int)
    ensures WindowSum(Held(bills), t) == Sum(bills, Amount, t)
    ensures Sum(bills, Amount, t) == Sum(bills, Covered, t) + Sum(bills, Beyond, t)
  {
    if bills != [] {
      var init := bills[..|bills| - 1];
      HeldSum(init, t);
      assert Held(bills)[..|init|] == Held(init);
    }
  }

  lemma {:induction false} ExpiredSum(events: seq<Event>, t: int)
    requires AllExpired(events, t)
    ensures WindowSum(events, t) == 0
  {
    if events != [] {
      ExpiredSum(events[..|events| - 1], t);
    }
  }

  lemma {:induction false} FreshSum(events: seq<Event>, t: int)
    requires forall i :: 0 <= i < |events| ==> InWindow(events[i].at, t)
    ensures WindowSum(events, t) == Total(events)
  {
    if events != [] {
      FreshSum(events[..|events| - 1], t);
    }
  }

  lemma {:induction false} ChronologicalDrop(stamps: seq<int>, n: nat, now: int)
    requires n <= |stamps| && Chronological(stamps, now)
    ensures Chronological(stamps[n..], now)
  {
    if n < |stamps| {
      ChronologicalDrop(stamps[..|stamps| - 1], n, stamps[|stamps| - 1]);
      assert stamps[n..][..|stamps[n..]| - 1] == stamps[..|stamps| - 1][n..];
    }
  }

  lemma {:induction false} ChronologicalBounds(stamps: seq<int>, now: int)
    requires Chronological(stamps, now)
    ensures forall i :: 0 <= i < |stamps| ==> stamps[0] <= stamps[i] <= now
  {
    if stamps != [] {
      ChronologicalBounds(stamps[..|stamps| - 1], stamps[|stamps| - 1]);
    }
  }

  lemma {:induction false} ChronologicalAppend(stamps: seq<int>, now: int, at: int)
    requires Chronological(stamps, now) && now <= at
    ensures Chronological(stamps + [at], at)
  {
    assert (stamps + [at])[..|stamps|] == stamps;
  }

  lemma {:induction false} PrunedAreExpired(events: seq<Event>, now: int)
    ensures AllExpired(events[..ExpiredPrefix(events, now)], now)
    ensures ExpiredPrefix(events, now) < |events| ==> !Expired(events[ExpiredPrefix(events, now)], now)
  {
    if events != [] && Expired(events[0], now) {
      var n := ExpiredPrefix(events[1..], now);
      PrunedAreExpired(events[1..], now);
      forall i | 0 <= i < 1 + n ensures Expired(events[i], now) {
        if i > 0 {
          assert events[i] == events[1..][..n][i - 1];
        }
      }
    }
  }

  lemma {:induction false} PrunedEvents(events: seq<Event>, before: int, now: int)
    requires Chronological(Stamps(events), before) && before <= now
    ensures var kept := events[ExpiredPrefix(events, now)..];
            && Chronological(Stamps(kept), now)
            && forall i :: 0 <= i < |kept| ==> InWindow(kept[i].at, now)
  {
    var n := ExpiredPrefix(events, now);
    var kept := events[n..];
    PrunedAreExpired(events, now);
    ChronologicalDrop(Stamps(events), n, before);
    assert Stamps(kept) == Stamps(events)[n..];
    ChronologicalBounds(Stamps(kept), before);
    forall i | 0 <= i < |kept| ensures InWindow(kept[i].at, now) {
      assert Stamps(kept)[0] <= Stamps(kept)[i] <= before;
      assert kept[0] == events[n];
    }
  }

  lemma {:induction false} PruneInv(s: State, limit: nat, now: int)
    requires Inv(s, limit) && s.now <= now
    ensures Inv(Prune(s, now), limit)
    ensures forall i :: 0 <= i < |Prune(s, now).events| ==> InWindow(Prune(s, now).events[i].at, now)
  {
    var p := Prune(s, now);
    PrunedAreExpired(s.events, now);
    PrunedEvents(s.events, s.now, now);
    assert s.gone + s.events == p.gone + p.events;
  }

  lemma {:induction false} PrunedSum(p: State, limit: nat)
    requires Inv(p, limit) && forall i :: 0 <= i < |p.events| ==> InWindow(p.events[i].at, p.now)
    ensures Total(p.events) == Sum(p.bills, Amount, p.now)
  {
    FreshSum(p.events, p.now);
    ExpiredSum(p.gone, p.now);
    WindowSumConcat(p.gone, p.events, p.now);
    WindowSumPermutes(Held(p.bills), p.gone + p.events, p.now);
    HeldSum(p.bills, p.now);
  }

  lemma {:induction false} EarlierWindow(bills: seq<Bill>, part: Bill -> nat, t0: int, t1: int)
    requires t0 <= t1 && Chronological(BillStamps(bills), t0)
    ensures Sum(bills, part, t1) <= Sum(bills, part, t0)
  {
    if bills != [] {
      var init := bills[..|bills| - 1];
      assert BillStamps(bills)[..|init|] == BillStamps(init);
      EarlierWindow(init, part, t0, t1);
    }
  }

  /** In any window the covered amounts fit the limit. */
  lemma {:induction false} CoveredFits(bills: seq<Bill>, limit: nat, now: int, t: int)
    requires Chronological(BillStamps(bills), now) && EachFitted(bills, limit)
    ensures Sum(bills, Covered, t) <= limit
  {
    if bills != [] {
      var init, last := bills[..|bills| - 1], bills[|bills| - 1];
      assert BillStamps(bills)[..|init|] == BillStamps(init);
      if InWindow(last.at, t) {
        EarlierWindow(bills, Covered, last.at, t);
      } else {
        CoveredFits(init, limit, last.at, t);
      }
    }
  }

  // ----- Every step keeps the invariant -----

  /** A new line that fits, written now. */
  lemma {:induction false} LedgerAppend(bills: seq<Bill>, b: Bill, limit: nat, now: int)
    requires Chronological(BillStamps(bills), now) && EachFitted(bills, limit) && now <= b.at
    requires Sum(bills, Covered, b.at) + Covered(b) <= limit
    ensures Chronological(BillStamps(bills + [b]), b.at) && EachFitted(bills + [b], limit)
    ensures Held(bills + [b]) == Held(bills) + [Event(b.at, Amount(b))]
  {
    assert (bills + [b])[..|bills|] == bills;
    ChronologicalAppend(BillStamps(bills), now, b.at);
    assert BillStamps(bills + [b]) == BillStamps(bills) + [b.at];
  }

  lemma {:induction false} SumLowers(bills: seq<Bill>, line: nat, b: Bill, t: int)
    requires line < |bills| && b.at == bills[line].at && Covered(b) <= Covered(bills[line])
    ensures Sum(bills[line := b], Covered, t) <= Sum(bills, Covered, t)
  {
    var n := |bills| - 1;
    if line < n {
      assert bills[line := b][..n] == bills[..n][line := b];
      SumLowers(bills[..n], line, b, t);
    } else {
      assert bills[line := b][..n] == bills[..n];
    }
  }

  lemma {:induction false} FittedLowers(bills: seq<Bill>, line: nat, b: Bill, limit: nat)
    requires EachFitted(bills, limit)
    requires line < |bills| && b.at == bills[line].at && Covered(b) <= Covered(bills[line])
    ensures EachFitted(bills[line := b], limit)
  {
    var n := |bills| - 1;
    SumLowers(bills, line, b, bills[n].at);
    if line < n {
      assert bills[line := b][..n] == bills[..n][line := b];
      FittedLowers(bills[..n], line, b, limit);
    } else {
      assert bills[line := b][..n] == bills[..n];
    }
  }

  /** A line whose covered amount does not grow and whose stamp stays. */
  lemma {:induction false} LedgerUpdate(bills: seq<Bill>, line: nat, b: Bill, limit: nat)
    requires EachFitted(bills, limit)
    requires line < |bills| && b.at == bills[line].at && Covered(b) <= Covered(bills[line])
    ensures EachFitted(bills[line := b], limit)
    ensures BillStamps(bills[line := b]) == BillStamps(bills)
    ensures Held(bills[line := b]) == Held(bills)[line := Event(b.at, Amount(b))]
  {
    FittedLowers(bills, line, b, limit);
  }

  lemma {:induction false} AdmitInv(p: State, limit: nat, t: nat)
    requires Inv(p, limit) && Sum(p.bills, Covered, p.now) + t <= limit
    ensures Inv(p.(events := p.events + [Event(p.now, t)], bills := p.bills + [Bill(p.now, t, None)]), limit)
  {
    var e := Event(p.now, t);
    LedgerAppend(p.bills, Bill(p.now, t, None), limit, p.now);
    assert p.gone + (p.events + [e]) == (p.gone + p.events) + [e];
    ChronologicalAppend(Stamps(p.events), p.now, p.now);
    assert Stamps(p.events + [e]) == Stamps(p.events) + [p.now];
  }

  lemma {:induction false} CheckInv(s: State, limit: nat, now: int, tokens: nat)
    requires Inv(s, limit) && s.now <= now
    ensures Inv(Next(s, limit, Check(now, tokens)), limit)
  {
    PruneInv(s, limit, now);
    if Admits(s, limit, now, tokens) {
      PrunedSum(Prune(s, now), limit);
      HeldSum(s.bills, now);
      AdmitInv(Prune(s, now), limit, Clamp(tokens, limit));
    }
  }

  lemma {:induction false} UpdateMultiset<T>(a: seq<T>, i: nat, b: seq<T>, j: nat, x: T)
    requires i < |a| && j < |b| && a[i] == b[j] && multiset(a) == multiset(b)
    ensures multiset(a[i := x]) == multiset(b[j := x])
  {
  }

  lemma {:induction false} SettleQueuedInv(s: State, limit: nat, now: int, line: nat, actual: nat)
    requires Inv(s, limit) && Enabled(s, Settle(now, line, actual)) && InQueue(s, line)
    ensures Inv(Next(s, limit, Settle(now, line, actual)), limit)
  {
    var b := s.bills[line];
    var i := IndexOf(s.events, Reservation(b)).value;
    var e := Event(b.at, actual);
    LedgerUpdate(s.bills, line, b.(billed := Some(actual)), limit);
    var all, k := s.gone + s.events, |s.gone| + i;
    assert all[k] == s.events[i] == Held(s.bills)[line];
    UpdateMultiset(Held(s.bills), line, all, k, e);
    assert all[k := e] == s.gone + s.events[i := e];
    assert Stamps(s.events[i := e]) == Stamps(s.events);
  }

  lemma {:induction false} SettleLateInv(s: State, limit: nat, now: int, line: nat, actual: nat)
    requires Inv(s, limit) && Enabled(s, Settle(now, line, actual)) && !InQueue(s, line)
    ensures Inv(Next(s, limit, Settle(now, line, actual)), limit)
  {
    var b := s.bills[line];
    var e := Event(now, actual);
    LedgerUpdate(s.bills, line, b.(billed := Some(b.reserved)), limit);
    var bills := s.bills[line := b.(billed := Some(b.reserved))];
    assert Held(bills) == Held(s.bills);
    CoveredFits(bills, limit, s.now, now);
    LedgerAppend(bills, Bill(now, 0, Some(actual)), limit, s.now);
    assert s.gone + (s.events + [e]) == (s.gone + s.events) + [e];
    ChronologicalAppend(Stamps(s.events), s.now, now);
    assert Stamps(s.events + [e]) == Stamps(s.events) + [now];
  }

  lemma {:induction false} StepInv(s: State, next: State, limit: nat, step: Step)
    requires Inv(s, limit) && Enabled(s, step) && next == Next(s, limit, step)
    ensures Inv(next, limit)
  {
    match step
    case Check(now, tokens) => CheckInv(s, limit, now, tokens);
    case Settle(now, line, actual) =>
      if InQueue(s, line) {
        SettleQueuedInv(s, limit, now, line, actual);
      } else {
        SettleLateInv(s, limit, now, line, actual);
      }
  }

  // ----- All runs -----

  /** Any number of callers, in any interleaving: `s` is reached from the empty limiter by these steps. */
  ghost predicate Reached(s: State, limit: nat, steps: seq<Step>)
    decreases |steps|
  {
    if steps == [] then s == EMPTY
    else
      var last := steps[|steps| - 1];
      exists p :: Reached(p, limit, steps[..|steps| - 1]) && Enabled(p, last) && s == Next(p, limit, last)
  }

  lemma {:induction false} ReachedStep(s: State, limit: nat, steps: seq<Step>, step: Step)
    requires Reached(s, limit, steps) && Enabled(s, step)
    ensures Reached(Next(s, limit, step), limit, steps + [step])
  {
    var longer, next := steps + [step], Next(s, limit, step);
    assert longer[..|longer| - 1] == steps && longer[|longer| - 1] == step;
    assert Reached(s, limit, longer[..|longer| - 1]) && Enabled(s, step) && next == Next(s, limit, step);
  }

  lemma {:induction false} Predecessor(s: State, limit: nat, steps: seq<Step>) returns (p: State)
    requires Reached(s, limit, steps) && steps != []
    ensures Reached(p, limit, steps[..|steps| - 1])
    ensures Enabled(p, steps[|steps| - 1]) && s == Next(p, limit, steps[|steps| - 1])
  {
    var last := steps[|steps| - 1];
    p :| Reached(p, limit, steps[..|steps| - 1]) && Enabled(p, last) && s == Next(p, limit, last);
  }

  lemma {:induction false} ReachedInv(s: State, limit: nat, steps: seq<Step>)
    requires Reached(s, limit, steps)
    ensures Inv(s, limit)
    decreases |steps|
  {
    if steps != [] {
      var p := Predecessor(s, limit, steps);
      ReachedInv(p, limit, steps[..|steps| - 1]);
      StepInv(p, s, limit, steps[|steps| - 1]);
    }
  }

  /** In every run and for every instant, the tokens billed in the last minute exceed the limit by at most what
      was billed beyond the reservations. */
  lemma {:induction false} WindowBound(s: State, limit: nat, steps: seq<Step>, t: int)
    requires Reached(s, limit, steps)
    ensures Sum(s.bills, Amount, t) <= limit + Sum(s.bills, Beyond, t)
  {
    ReachedInv(s, limit, steps);
    CoveredFits(s.bills, limit, s.now, t);
    HeldSum(s.bills, t);
  }

  lemma {:induction false} SumSnoc(bills: seq<Bill>, b: Bill, part: Bill -> nat, t: int)
    ensures Sum(bills + [b], part, t) == Sum(bills, part, t) + if InWindow(b.at, t) then part(b) else 0
  {
    assert (bills + [b])[..|bills|] == bills;
  }

  lemma {:induction false} AdmittedBills(s: State, limit: nat, now: int, tokens: nat)
    requires s.now <= now && Admits(s, limit, now, tokens)
    ensures Next(s, limit, Check(now, tokens)).bills == s.bills + [Bill(now, Clamp(tokens, limit), None)]
  {
  }

  /** The pruned deque agrees with the full history: in every run, what `_used` returns is the sum over the whole
      ledger of the amounts stamped in the last window. */
  lemma {:induction false} UsedIsWindowSum(s: State, limit: nat, steps: seq<Step>, now: int)
    requires Reached(s, limit, steps) && s.now <= now
    ensures Total(Prune(s, now).events) == Sum(s.bills, Amount, now)
  {
    ReachedInv(s, limit, steps);
    PruneInv(s, limit, now);
    PrunedSum(Prune(s, now), limit);
  }

  /** Right after an admission the window, with the new reservation, is within the limit whatever was billed. */
  lemma {:induction false} AdmissionFits(s: State, limit: nat, steps: seq<Step>, now: int, tokens: nat)
    requires Reached(s, limit, steps) && s.now <= now && Admits(s, limit, now, tokens)
    ensures Sum(Next(s, limit, Check(now, tokens)).bills, Amount, now) <= limit
  {
    UsedIsWindowSum(s, limit, steps, now);
    AdmittedBills(s, limit, now, tokens);
    SumSnoc(s.bills, Bill(now, Clamp(tokens, limit), None), Amount, now);
  }

  /** No line of the ledger was billed beyond its reservation. */
  ghost predicate WithinReservations(bills: seq<Bill>) {
    forall i :: 0 <= i < |bills| ==> Amount(bills[i]) <= bills[i].reserved
  }

  lemma {:induction false} NothingBeyond(bills: seq<Bill>, t: int)
    requires WithinReservations(bills)
    ensures Sum(bills, Beyond, t) == 0
  {
    if bills != [] {
      NothingBeyond(bills[..|bills| - 1], t);
    }
  }

  lemma {:induction false} LineInSum(bills: seq<Bill>, part: Bill -> nat, line: nat, t: int)
    requires line < |bills| && InWindow(bills[line].at, t)
    ensures part(bills[line]) <= Sum(bills, part, t)
  {
    if line < |bills| - 1 {
      LineInSum(bills[..|bills| - 1], part, line, t);
    }
  }

  /** The excess that `WindowBound` allows is nothing in every window. */
  ghost predicate NoExcess(bills: seq<Bill>) {
    forall t :: Sum(bills, Beyond, t) == 0
  }

  lemma {:induction false} NoExcessExactly(bills: seq<Bill>)
    ensures NoExcess(bills) <==> WithinReservations(bills)
  {
    if WithinReservations(bills) {
      forall t ensures Sum(bills, Beyond, t) == 0 {
        NothingBeyond(bills, t);
      }
    }
    if NoExcess(bills) {
      forall i | 0 <= i < |bills| ensures Amount(bills[i]) <= bills[i].reserved {
        LineInSum(bills, Beyond, i, bills[i].at);
      }
    }
  }

  /** The state after the steps; a step that is not enabled is skipped. */
  function Replay(limit: nat, steps: seq<Step>): State {
    if steps == [] then EMPTY
    else
      var p, last := Replay(limit, steps[..|steps| - 1]), steps[|steps| - 1];
      if Enabled(p, last) then Next(p, limit, last) else p
  }

  lemma {:induction false} ReachedIsReplay(s: State, limit: nat, steps: seq<Step>)
    requires Reached(s, limit, steps)
    ensures s == Replay(limit, steps)
    decreases |steps|
  {
    if steps != [] {
      var p := Predecessor(s, limit, steps);
      ReachedIsReplay(p, limit, steps[..|steps| - 1]);
    }
  }

  /** A settlement that keeps the promise of its reservation: while the reservation is queued it bills no more, and
      once the reservation has left the deque it bills nothing. */
  predicate Modest(s: State, step: Step) {
    step.Settle? && step.line < |s.bills| ==>
      if InQueue(s, step.line) then step.actual <= s.bills[step.line].reserved else step.actual == 0
  }

  predicate AllModest(limit: nat, steps: seq<Step>) {
    steps == [] ||
    (AllModest(limit, steps[..|steps| - 1]) && Modest(Replay(limit, steps[..|steps| - 1]), steps[|steps| - 1]))
  }

  lemma {:induction false} WithinSnoc(bills: seq<Bill>, b: Bill)
    ensures WithinReservations(bills + [b]) <==> WithinReservations(bills) && Amount(b) <= b.reserved
  {
    if WithinReservations(bills + [b]) {
      forall i | 0 <= i < |bills| ensures Amount(bills[i]) <= bills[i].reserved {
        assert (bills + [b])[i] == bills[i];
      }
      assert (bills + [b])[|bills|] == b;
    }
  }

  lemma {:induction false} WithinUpdate(bills: seq<Bill>, line: nat, b: Bill)
    requires line < |bills| && Amount(bills[line]) <= bills[line].reserved
    ensures WithinReservations(bills[line := b]) <==> WithinReservations(bills) && Amount(b) <= b.reserved
  {
    var next := bills[line := b];
    if WithinReservations(next) {
      assert next[line] == b;
      forall i | 0 <= i < |bills| ensures Amount(bills[i]) <= bills[i].reserved {
        assert i != line ==> next[i] == bills[i];
      }
    }
  }

  lemma {:induction false} ModestStep(s: State, limit: nat, step: Step)
    requires Enabled(s, step)
    ensures WithinReservations(Next(s, limit, step).bills) <==> WithinReservations(s.bills) && Modest(s, step)
  {
    match step
    case Check(now, tokens) =>
      WithinSnoc(s.bills, Bill(now, Clamp(tokens, limit), None));
    case Settle(now, line, actual) =>
      var b := s.bills[line];
      WithinUpdate(s.bills, line, b.(billed := Some(actual)));
      WithinUpdate(s.bills, line, b.(billed := Some(b.reserved)));
      WithinSnoc(s.bills[line := b.(billed := Some(b.reserved))], Bill(now, 0, Some(actual)));
  }

  lemma {:induction false} ModestSteps(s: State, limit: nat, steps: seq<Step>)
    requires Reached(s, limit, steps)
    ensures WithinReservations(s.bills) <==> AllModest(limit, steps)
    decreases |steps|
  {
    if steps != [] {
      var init, last := steps[..|steps| - 1], steps[|steps| - 1];
      var p := Predecessor(s, limit, steps);
      ModestSteps(p, limit, init);
      ReachedIsReplay(p, limit, init);
      ModestStep(p, limit, last);
    }
  }

  /** The excess over the limit that `WindowBound` leaves open is nothing in every window exactly when every settlement
      was modest. */
  lemma {:induction false} WithinExactly(s: State, limit: nat, steps: seq<Step>)
    requires Reached(s, limit, steps)
    ensures NoExcess(s.bills) <==> AllModest(limit, steps)
  {
    NoExcessExactly(s.bills);
    ModestSteps(s, limit, steps);
  }

  // ----- Exactly when the windows stay within the limit -----

  /** No 60-second window of the ledger exceeds the limit. */
  ghost predicate WindowsFit(bills: seq<Bill>, limit: nat) {
    forall t :: Sum(bills, Amount, t) <= limit
  }

  /** A settlement finds room for what it bills. While the reservation is queued: every window that ends at a line of
      the ledger and holds the reservation fits with the billed amount in its place. Once it has left the deque: the
      amount passes the test that `reserve` makes and `settle` does not. */
  predicate HasRoom(s: State, limit: nat, step: Step) {
    step.Settle? && step.line < |s.bills| ==>
      if InQueue(s, step.line) then
        var b := s.bills[step.line];
        forall i :: 0 <= i < |s.bills| && InWindow(b.at, s.bills[i].at) ==>
          Sum(s.bills, Amount, s.bills[i].at) - Amount(b) + step.actual <= limit
      else Sum(s.bills, Amount, step.now) + step.actual <= limit
  }

  lemma {:induction false} SumUpdate(bills: seq<Bill>, line: nat, b: Bill, t: int)
    requires line < |bills| && b.at == bills[line].at
    ensures Sum(bills[line := b], Amount, t) ==
            Sum(bills, Amount, t) + if InWindow(b.at, t) then Amount(b) - Amount(bills[line]) else 0
  {
    var n := |bills| - 1;
    if line < n {
      assert bills[line := b][..n] == bills[..n][line := b];
      SumUpdate(bills[..n], line, b, t);
    } else {
      assert bills[line := b][..n] == bills[..n];
    }
  }

  /** The fullest windows end at a line of the ledger. */
  lemma {:induction false} FullestEndsAtLine(bills: seq<Bill>, now: int, line: nat, t: int) returns (i: nat)
    requires Chronological(BillStamps(bills), now) && line < |bills| && InWindow(bills[line].at, t)
    ensures i < |bills| && InWindow(bills[line].at, bills[i].at)
    ensures Sum(bills, Amount, t) <= Sum(bills, Amount, bills[i].at)
  {
    var n := |bills| - 1;
    assert BillStamps(bills)[..n] == BillStamps(bills[..n]);
    if bills[n].at <= t {
      ChronologicalBounds(BillStamps(bills), bills[n].at);
      LastIsLatest(bills, line);
      EarlierWindow(bills, Amount, bills[n].at, t);
      i := n;
    } else {
      i := FullestEndsAtLine(bills[..n], bills[n].at, line, t);
    }
  }

  lemma {:induction false} LastIsLatest(bills: seq<Bill>, line: nat)
    requires line < |bills| && Chronological(BillStamps(bills), bills[|bills| - 1].at)
    ensures bills[line].at <= bills[|bills| - 1].at
  {
    ChronologicalBounds(BillStamps(bills), bills[|bills| - 1].at);
    assert BillStamps(bills)[line] == bills[line].at;
  }

  lemma {:induction false} AppendFits(bills: seq<Bill>, b: Bill, limit: nat)
    requires Chronological(BillStamps(bills), b.at) && WindowsFit(bills, limit)
    ensures WindowsFit(bills + [b], limit) <==> Sum(bills, Amount, b.at) + Amount(b) <= limit
  {
    SumSnoc(bills, b, Amount, b.at);
    if Sum(bills, Amount, b.at) + Amount(b) <= limit {
      forall t ensures Sum(bills + [b], Amount, t) <= limit {
        SumSnoc(bills, b, Amount, t);
        if InWindow(b.at, t) {
          EarlierWindow(bills, Amount, b.at, t);
        }
      }
    }
  }

  lemma {:induction false} UpdateFits(bills: seq<Bill>, now: int, line: nat, b: Bill, limit: nat)
    requires Chronological(BillStamps(bills), now) && WindowsFit(bills, limit)
    requires line < |bills| && b.at == bills[line].at
    ensures WindowsFit(bills[line := b], limit) <==>
            forall i :: 0 <= i < |bills| && InWindow(b.at, bills[i].at) ==>
              Sum(bills, Amount, bills[i].at) - Amount(bills[line]) + Amount(b) <= limit
  {
    var next := bills[line := b];
    if WindowsFit(next, limit) {
      forall i | 0 <= i < |bills| && InWindow(b.at, bills[i].at)
        ensures Sum(bills, Amount, bills[i].at) - Amount(bills[line]) + Amount(b) <= limit
      {
        SumUpdate(bills, line, b, bills[i].at);
        assert Sum(next, Amount, bills[i].at) <= limit;
      }
    }
    if forall i :: 0 <= i < |bills| && InWindow(b.at, bills[i].at) ==>
         Sum(bills, Amount, bills[i].at) - Amount(bills[line]) + Amount(b) <= limit
    {
      forall t ensures Sum(next, Amount, t) <= limit {
        SumUpdate(bills, line, b, t);
        if InWindow(b.at, t) {
          var i := FullestEndsAtLine(bills, now, line, t);
        }
      }
    }
  }

  lemma {:induction false} LateFits(s: State, limit: nat, now: int, line: nat, actual: nat)
    requires Inv(s, limit) && Enabled(s, Settle(now, line, actual)) && !InQueue(s, line) && WindowsFit(s.bills, limit)
    ensures WindowsFit(Next(s, limit, Settle(now, line, actual)).bills, limit) <==>
            Sum(s.bills, Amount, now) + actual <= limit
  {
    var b := s.bills[line].(billed := Some(s.bills[line].reserved));
    var bills := s.bills[line := b];
    forall t ensures Sum(bills, Amount, t) == Sum(s.bills, Amount, t) {
      SumUpdate(s.bills, line, b, t);
    }
    assert BillStamps(bills) == BillStamps(s.bills);
    LaterChronological(BillStamps(bills), s.now, now);
    AppendFits(bills, Bill(now, 0, Some(actual)), limit);
  }

  lemma {:induction false} LaterChronological(stamps: seq<int>, before: int, now: int)
    requires Chronological(stamps, before) && before <= now
    ensures Chronological(stamps, now)
  {
  }

  lemma {:induction false} CheckFits(s: State, limit: nat, now: int, tokens: nat)
    requires Inv(s, limit) && s.now <= now && WindowsFit(s.bills, limit)
    ensures WindowsFit(Next(s, limit, Check(now, tokens)).bills, limit)
  {
    if Admits(s, limit, now, tokens) {
      PruneInv(s, limit, now);
      PrunedSum(Prune(s, now), limit);
      AdmittedBills(s, limit, now, tokens);
      AppendFits(s.bills, Bill(now, Clamp(tokens, limit), None), limit);
    }
  }

  lemma {:induction false} StepFits(s: State, limit: nat, step: Step)
    requires Inv(s, limit) && Enabled(s, step) && WindowsFit(s.bills, limit)
    ensures WindowsFit(Next(s, limit, step).bills, limit) <==> HasRoom(s, limit, step)
  {
    match step
    case Check(now, tokens) => CheckFits(s, limit, now, tokens);
    case Settle(now, line, actual) =>
      if InQueue(s, line) {
        UpdateFits(s.bills, s.now, line, s.bills[line].(billed := Some(actual)), limit);
      } else {
        LateFits(s, limit, now, line, actual);
      }
  }

  /** No window exceeds the limit at any moment of the run. */
  ghost predicate EverFits(limit: nat, steps: seq<Step>) {
    forall k :: 0 <= k <= |steps| ==> WindowsFit(Replay(limit, steps[..k]).bills, limit)
  }

  /** Every settlement of the run finds room. */
  predicate AllHaveRoom(limit: nat, steps: seq<Step>) {
    forall k :: 0 <= k < |steps| ==> RoomAt(limit, steps, k)
  }

  predicate RoomAt(limit: nat, steps: seq<Step>, k: nat)
    requires k < |steps|
  {
    HasRoom(Replay(limit, steps[..k]), limit, steps[k])
  }

  lemma {:induction false} FitsSnoc(limit: nat, steps: seq<Step>)
    requires steps != []
    ensures EverFits(limit, steps) <==>
            EverFits(limit, steps[..|steps| - 1]) && WindowsFit(Replay(limit, steps).bills, limit)
  {
    var n := |steps| - 1;
    assert steps[..|steps|] == steps;
    forall k | 0 <= k <= n ensures steps[..n][..k] == steps[..k] {
    }
    if EverFits(limit, steps[..n]) && WindowsFit(Replay(limit, steps).bills, limit) {
      forall k | 0 <= k <= |steps| ensures WindowsFit(Replay(limit, steps[..k]).bills, limit) {
        assert k <= n ==> steps[..n][..k] == steps[..k];
      }
    }
  }

  lemma {:induction false} RoomSnoc(limit: nat, steps: seq<Step>)
    requires steps != []
    ensures AllHaveRoom(limit, steps) <==>
            AllHaveRoom(limit, steps[..|steps| - 1]) && RoomAt(limit, steps, |steps| - 1)
  {
    var n := |steps| - 1;
    forall k | 0 <= k < n ensures RoomAt(limit, steps[..n], k) <==> RoomAt(limit, steps, k) {
      RoomInPrefix(limit, steps, n, k);
    }
  }

  lemma {:induction false} RoomInPrefix(limit: nat, steps: seq<Step>, n: nat, k: nat)
    requires k < n <= |steps|
    ensures RoomAt(limit, steps[..n], k) <==> RoomAt(limit, steps, k)
  {
    assert steps[..n][..k] == steps[..k] && steps[..n][k] == steps[k];
  }

  /** In every run the windows stay within the limit throughout exactly when every settlement finds room. */
  lemma {:induction false} FitsExactly(s: State, limit: nat, steps: seq<Step>)
    requires Reached(s, limit, steps)
    ensures EverFits(limit, steps) <==> AllHaveRoom(limit, steps)
    decreases |steps|
  {
    ReachedIsReplay(s, limit, steps);
    if steps != [] {
      var n := |steps| - 1;
      var p := Predecessor(s, limit, steps);
      FitsExactly(p, limit, steps[..n]);
      ReachedIsReplay(p, limit, steps[..n]);
      ReachedInv(p, limit, steps[..n]);
      FitsSnoc(limit, steps);
      RoomSnoc(limit, steps);
      if EverFits(limit, steps[..n]) {
        assert steps[..n][..n] == steps[..n];
        StepFits(p, limit, steps[n]);
      }
    }
  }

  lemma {:induction false} ModestHasRoom(s: State, limit: nat, step: Step)
    requires Enabled(s, step) && Modest(s, step) && WindowsFit(s.bills, limit)
    ensures HasRoom(s, limit, step)
  {
  }

  lemma {:induction false} ModestFits(s: State, limit: nat, steps: seq<Step>)
    requires Reached(s, limit, steps) && AllModest(limit, steps)
    ensures EverFits(limit, steps)
    decreases |steps|
  {
    FitsExactly(s, limit, steps);
    if steps != [] {
      var n := |steps| - 1;
      var p := Predecessor(s, limit, steps);
      ModestFits(p, limit, steps[..n]);
      FitsExactly(p, limit, steps[..n]);
      ReachedIsReplay(p, limit, steps[..n]);
      assert steps[..n][..n] == steps[..n];
      ModestHasRoom(p, limit, steps[n]);
      RoomSnoc(limit, steps);
    }
  }

  /** In particular: if every settlement comes while its reservation is queued and bills no more than it, or comes late
      and bills nothing, then no 60-second window ever exceeds the limit. */
  lemma {:induction false} WindowWithinLimit(s: State, limit: nat, steps: seq<Step>, t: int)
    requires Reached(s, limit, steps) && AllModest(limit, steps)
    ensures Sum(s.bills, Amount, t) <= limit
  {
    ModestFits(s, limit, steps);
    ReachedIsReplay(s, limit, steps);
    assert steps[..|steps|] == steps;
  }

  /** A reservation of the whole limit, as the first call makes it. */
  function Filled(limit: nat): State {
    State([Event(0, limit)], [], [Bill(0, limit, None)], 0)
  }

  lemma {:induction false} FirstReservation(limit: nat)
    ensures Next(EMPTY, limit, Check(0, limit)) == Filled(limit)
  {
    var none: seq<Event> := [];
    assert Total(none) == 0 && ExpiredPrefix(none, 0) == 0;
    assert none[0..] == none && none + none[..0] == none;
    assert Prune(EMPTY, 0) == EMPTY;
    assert Admits(EMPTY, limit, 0, limit);
  }

  lemma {:induction false} FirstOverrun(limit: nat)
    ensures Enabled(Filled(limit), Settle(0, 0, limit + 1))
    ensures Next(Filled(limit), limit, Settle(0, 0, limit + 1)).bills == [Bill(0, limit, Some(limit + 1))]
  {
    assert IndexOf(Filled(limit).events, Event(0, limit)).Some?;
  }

  /** Without room the limit breaks. One reservation that fills the limit and is billed more breaks it. */
  lemma {:induction false} OverrunBreaksLimit(limit: nat)
    ensures exists s: State, steps :: Reached(s, limit, steps) && Sum(s.bills, Amount, 0) == limit + 1
  {
    var reserve, settle := Check(0, limit), Settle(0, 0, limit + 1);
    assert Reached(EMPTY, limit, []);
    FirstReservation(limit);
    ReachedStep(EMPTY, limit, [], reserve);
    FirstOverrun(limit);
    ReachedStep(Filled(limit), limit, [] + [reserve], settle);
    LoneOverrun(Next(Filled(limit), limit, settle), limit);
  }

  lemma {:induction false} LoneOverrun(s: State, limit: nat)
    requires s.bills == [Bill(0, limit, Some(limit + 1))]
    ensures Sum(s.bills, Amount, 0) == limit + 1
  {
    assert s.bills[..0] == [];
  }

  /** The second call reserves the whole limit as soon as the first reservation expires. */
  function Refilled(limit: nat): State {
    State([Event(WINDOW_MS, limit)], [Event(0, limit)], [Bill(0, limit, None), Bill(WINDOW_MS, limit, None)], WINDOW_MS)
  }

  lemma {:induction false} SecondReservation(limit: nat)
    ensures Next(Filled(limit), limit, Check(WINDOW_MS, limit)) == Refilled(limit)
  {
    var queue := [Event(0, limit)];
    assert queue[1..] == [] && queue[..1] == queue;
    assert ExpiredPrefix(queue[1..], WINDOW_MS) == 0 && ExpiredPrefix(queue, WINDOW_MS) == 1;
    assert Prune(Filled(limit), WINDOW_MS) == State([], queue, [Bill(0, limit, None)], WINDOW_MS);
    assert Total(Prune(Filled(limit), WINDOW_MS).events) == 0;
    assert Admits(Filled(limit), limit, WINDOW_MS, limit);
  }

  lemma {:induction false} FirstSettlesLate(limit: nat)
    ensures Enabled(Refilled(limit), Settle(WINDOW_MS + 1, 0, limit))
    ensures Next(Refilled(limit), limit, Settle(WINDOW_MS + 1, 0, limit)).bills ==
            [Bill(0, limit, Some(limit)), Bill(WINDOW_MS, limit, None), Bill(WINDOW_MS + 1, 0, Some(limit))]
  {
    var queue := [Event(WINDOW_MS, limit)];
    assert IndexOf(queue[1..], Event(0, limit)).None?;
    assert IndexOf(queue, Event(0, limit)).None?;
  }

  lemma {:induction false} LateBill(s: State, limit: nat)
    requires s.bills == [Bill(0, limit, Some(limit)), Bill(WINDOW_MS, limit, None), Bill(WINDOW_MS + 1, 0, Some(limit))]
    ensures Sum(s.bills, Amount, WINDOW_MS + 1) == 2 * limit
  {
    var one, two := [Bill(0, limit, Some(limit))], [Bill(0, limit, Some(limit)), Bill(WINDOW_MS, limit, None)];
    assert s.bills[..2] == two && two[..1] == one && one[..0] == [];
    assert Sum(one, Amount, WINDOW_MS + 1) == 0;
    assert Sum(two, Amount, WINDOW_MS + 1) == limit;
  }

  /** And two calls that are each billed exactly their reservation break it if the first settles after its reservation
      has left the deque: its tokens are then counted a second time, next to the reservation that took its place. */
  lemma {:induction false} LateSettlementBreaksLimit(limit: nat)
    ensures exists s: State :: Sum(s.bills, Amount, WINDOW_MS + 1) == 2 * limit &&
              Reached(s, limit, [Check(0, limit), Check(WINDOW_MS, limit), Settle(WINDOW_MS + 1, 0, limit)])
  {
    var first, second, late := Check(0, limit), Check(WINDOW_MS, limit), Settle(WINDOW_MS + 1, 0, limit);
    assert Reached(EMPTY, limit, []);
    FirstReservation(limit);
    ReachedStep(EMPTY, limit, [], first);
    SecondReservation(limit);
    ReachedStep(Filled(limit), limit, [] + [first], second);
    FirstSettlesLate(limit);
    ReachedStep(Refilled(limit), limit, [] + [first] + [second], late);
    assert [] + [first] + [second] + [late] == [first, second, late];
    LateBill(Next(Refilled(limit), limit, late), limit);
  }

  // ----- Progress -----

  /** How long `reserve` sleeps after a failed check. */
  function SleepMs(oldest: Event, now: int): int {
    Min(Max(WINDOW_MS - (now - oldest.at) + SLACK_MS, SLACK_MS), MAX_SLEEP_MS)
  }

  /** A failed check never reads the oldest event of an empty deque, because the request is clamped. */
  lemma {:induction false} FailedCheckHasOldest(s: State, limit: nat, now: int, tokens: nat)
    requires !Admits(s, limit, now, tokens)
    ensures Prune(s, now).events != []
  {
  }

  /** The deques after the failed checks of one waiting `reserve`. In between it sleeps at least as long as it
      asked for, and other tasks may settle queued reservations, which changes amounts but no stamps. */
  datatype Wait = Wait(events: seq<Event>, now: int)

  ghost predicate Wakes(a: Wait, b: Wait) {
    && a.events != [] && b.now >= a.now + SleepMs(a.events[0], a.now)
    && |b.events| <= |a.events|
    && var n := |a.events| - |b.events|;
    && (forall i :: 0 <= i < |b.events| ==> b.events[i].at == a.events[n + i].at)
    && (forall i :: 0 <= i < n ==> Expired(a.events[i], b.now))
    && (b.events != [] ==> !Expired(b.events[0], b.now))
  }

  ghost predicate Waiting(waits: seq<Wait>) {
    && waits != [] && Chronological(Stamps(waits[0].events), waits[0].now)
    && waits[0].events != [] && !Expired(waits[0].events[0], waits[0].now)
    && forall k, next :: 0 <= k < next < |waits| && next == k + 1 ==> Wakes(waits[k], waits[next])
  }

  /** Each sleep either lasts a full second or expires the oldest event. */
  lemma {:induction false} SleepMakesProgress(a: Wait, b: Wait)
    requires Wakes(a, b)
    ensures b.now >= a.now + MAX_SLEEP_MS || |b.events| < |a.events|
    ensures b.now >= a.now
  {
    if |b.events| == |a.events| {
      assert b.events[0].at == a.events[0].at;
    }
  }

  /** Full seconds slept and events expired account for every sleep. */
  lemma {:induction false} SleepsAccounted(waits: seq<Wait>, k: nat) returns (full: nat, expired: nat)
    requires Waiting(waits) && k < |waits|
    ensures k == full + expired
    ensures waits[k].now >= waits[0].now + full * MAX_SLEEP_MS
    ensures |waits[k].events| <= |waits[0].events| - expired
    ensures forall i :: 0 <= i < |waits[k].events| ==> waits[k].events[i].at <= waits[0].now
    ensures waits[k].events != [] ==> !Expired(waits[k].events[0], waits[k].now)
  {
    full, expired := 0, 0;
    if k == 0 {
      ChronologicalBounds(Stamps(waits[0].events), waits[0].now);
      forall i | 0 <= i < |waits[0].events| ensures waits[0].events[i].at <= waits[0].now {
        assert Stamps(waits[0].events)[i] <= waits[0].now;
      }
    } else {
      full, expired := SleepsAccounted(waits, k - 1);
      assert Wakes(waits[k - 1], waits[k]);
      SleepMakesProgress(waits[k - 1], waits[k]);
      if waits[k].now >= waits[k - 1].now + MAX_SLEEP_MS {
        full := full + 1;
      } else {
        expired := expired + 1;
      }
    }
  }

  /** Full seconds and expired events bound the failed checks. */
  lemma {:induction false} BoundedWaiting(waits: seq<Wait>)
    requires Waiting(waits) && waits[|waits| - 1].events != []
    ensures |waits| < 60 + |waits[0].events|
  {
    var k := |waits| - 1;
    var full, expired := SleepsAccounted(waits, k);
    assert waits[k].events[0].at <= waits[0].now;
  }

  lemma {:induction false} PopPrune(s: State, at: int)
    requires s.events != [] && Expired(s.events[0], at)
    ensures Prune(s.(events := s.events[1..], gone := s.gone + [s.events[0]]), at) == Prune(s, at)
  {
    var n := ExpiredPrefix(s.events[1..], at);
    assert s.events[1..][n..] == s.events[1 + n..];
    assert s.gone + [s.events[0]] + s.events[1..][..n] == s.gone + s.events[..1 + n];
  }

  /** A failed check adds one deque to the record of a waiting `reserve`; meanwhile the amounts may have changed. */
  lemma {:induction false} WaitsGrow(waits: seq<Wait>, before: seq<Event>, w: Wait)
    requires w.events != [] && w.events == before[ExpiredPrefix(before, w.now)..]
    requires Chronological(Stamps(w.events), w.now)
    requires waits != [] ==> Waiting(waits) && before != [] && Stamps(waits[|waits| - 1].events) == Stamps(before)
    requires waits != [] ==> w.now >= waits[|waits| - 1].now + SleepMs(before[0], waits[|waits| - 1].now)
    ensures Waiting(waits + [w])
  {
    PrunedAreExpired(before, w.now);
    var grown := waits + [w];
    var n := ExpiredPrefix(before, w.now);
    if waits != [] {
      SameStampsWake(waits[|waits| - 1], before, w);
    }
    forall k, next | 0 <= k < next < |grown| && next == k + 1 ensures Wakes(grown[k], grown[next]) {
      if next < |waits| {
        assert Wakes(waits[k], waits[next]);
      }
    }
  }

  lemma {:induction false} SameStampsWake(a: Wait, before: seq<Event>, w: Wait)
    requires a.events != [] && before != [] && Stamps(a.events) == Stamps(before)
    requires w.events != [] && w.events == before[ExpiredPrefix(before, w.now)..]
    requires w.now >= a.now + SleepMs(before[0], a.now)
    ensures Wakes(a, w)
  {
    PrunedAreExpired(before, w.now);
    var n := ExpiredPrefix(before, w.now);
    forall i | 0 <= i < |before| ensures a.events[i].at == before[i].at {
      assert Stamps(a.events)[i] == Stamps(before)[i];
    }
    forall i | 0 <= i < n ensures Expired(a.events[i], w.now) {
      assert before[..n][i] == before[i];
    }
  }

  // ----- Waiting while other calls settle -----

  /** Settlements of queued reservations, one after the other. */
  function SettleAll(s: State, limit: nat, settles: seq<Step>): Option<State> {
    if settles == [] then Some(s)
    else
      var last := settles[|settles| - 1];
      match SettleAll(s, limit, settles[..|settles| - 1])
      case None => None
      case Some(p) =>
        if last.Settle? && Enabled(p, last) && InQueue(p, last.line) then Some(Next(p, limit, last)) else None
  }

  lemma {:induction false} QueuedSettleKeepsStamps(s: State, limit: nat, step: Step)
    requires step.Settle? && Enabled(s, step) && InQueue(s, step.line)
    ensures Stamps(Next(s, limit, step).events) == Stamps(s.events) && Next(s, limit, step).now >= s.now
  {
  }

  /** Any run of queued settlements keeps the stamps of the deque. */
  lemma {:induction false} SettlesKeepStamps(s: State, limit: nat, settles: seq<Step>)
    requires Inv(s, limit) && SettleAll(s, limit, settles).Some?
    ensures var m := SettleAll(s, limit, settles).value;
            Inv(m, limit) && Stamps(m.events) == Stamps(s.events) && m.now >= s.now
  {
    if settles != [] {
      var init, last := settles[..|settles| - 1], settles[|settles| - 1];
      SettlesKeepStamps(s, limit, init);
      var p := SettleAll(s, limit, init).value;
      StepInv(p, Next(p, limit, last), limit, last);
      QueuedSettleKeepsStamps(p, limit, last);
    }
  }

  /** What happens from one failed check of a waiting caller to its next: others settle, then the check at `at`. */
  datatype Round = Round(settles: seq<Step>, at: int)

  /** The next check of the caller comes after the sleep it asked for, if it has slept, and fails. */
  predicate FailsAgain(p: State, m: State, limit: nat, tokens: nat, at: int, slept: bool) {
    && m.now <= at && !Admits(m, limit, at, tokens)
    && (slept ==> p.events != [] && at >= p.now + SleepMs(p.events[0], p.now))
  }

  /** The state after all rounds, if each is as a waiting caller meets it. */
  function FailAll(s: State, limit: nat, tokens: nat, rounds: seq<Round>): Option<State> {
    if rounds == [] then Some(s)
    else
      var init, last := rounds[..|rounds| - 1], rounds[|rounds| - 1];
      match FailAll(s, limit, tokens, init)
      case None => None
      case Some(p) =>
        match SettleAll(p, limit, last.settles)
        case None => None
        case Some(m) =>
          if FailsAgain(p, m, limit, tokens, last.at, init != []) then Some(Next(m, limit, Check(last.at, tokens)))
          else None
  }

  ghost function WaitsOf(s: State, limit: nat, tokens: nat, rounds: seq<Round>): (w: seq<Wait>)
    requires FailAll(s, limit, tokens, rounds).Some?
    ensures |w| == |rounds|
  {
    if rounds == [] then []
    else
      WaitsOf(s, limit, tokens, rounds[..|rounds| - 1]) +
      [Wait(FailAll(s, limit, tokens, rounds).value.events, rounds[|rounds| - 1].at)]
  }

  lemma {:induction false} FailedCheck(m: State, limit: nat, tokens: nat, at: int)
    requires Inv(m, limit) && m.now <= at && !Admits(m, limit, at, tokens)
    ensures var t := Next(m, limit, Check(at, tokens));
            && Inv(t, limit) && t.now == at && t.events != []
            && t.events == m.events[ExpiredPrefix(m.events, at)..] && |t.events| <= |m.events|
            && Chronological(Stamps(t.events), at)
  {
    FailedCheckHasOldest(m, limit, at, tokens);
    StepInv(m, Next(m, limit, Check(at, tokens)), limit, Check(at, tokens));
  }

  lemma {:induction false} StampsLength(a: seq<Event>, b: seq<Event>)
    requires Stamps(a) == Stamps(b)
    ensures |a| == |b| && (a != [] ==> a[0].at == b[0].at)
  {
    assert |Stamps(a)| == |Stamps(b)|;
    if a != [] {
      assert Stamps(a)[0] == Stamps(b)[0];
    }
  }

  /** The failed checks of such a run are a record of waits. */
  lemma {:induction false} RoundsAreWaits(s: State, limit: nat, tokens: nat, rounds: seq<Round>)
    requires Inv(s, limit) && FailAll(s, limit, tokens, rounds).Some?
    ensures var t, waits := FailAll(s, limit, tokens, rounds).value, WaitsOf(s, limit, tokens, rounds);
            && Inv(t, limit) && |t.events| <= |s.events|
            && (rounds != [] ==>
                  && Waiting(waits) && waits[|waits| - 1] == Wait(t.events, t.now) && t.events != []
                  && |waits[0].events| <= |s.events|)
  {
    if rounds != [] {
      var init, last := rounds[..|rounds| - 1], rounds[|rounds| - 1];
      RoundsAreWaits(s, limit, tokens, init);
      var p := FailAll(s, limit, tokens, init).value;
      SettlesKeepStamps(p, limit, last.settles);
      var m := SettleAll(p, limit, last.settles).value;
      StampsLength(m.events, p.events);
      FailedCheck(m, limit, tokens, last.at);
      var next := Wait(Next(m, limit, Check(last.at, tokens)).events, last.at);
      WaitsGrow(WaitsOf(s, limit, tokens, init), m.events, next);
    }
  }

  /** In every run, a waiting `reserve` fails fewer than 60 + |events| checks, whatever settlements of queued
      reservations happen in between and however late it wakes. */
  lemma {:induction false} WaitingIsBounded(s: State, limit: nat, steps: seq<Step>, tokens: nat, rounds: seq<Round>)
    requires Reached(s, limit, steps) && FailAll(s, limit, tokens, rounds).Some?
    ensures |rounds| < 60 + |s.events|
  {
    if rounds != [] {
      ReachedInv(s, limit, steps);
      RoundsAreWaits(s, limit, tokens, rounds);
      BoundedWaiting(WaitsOf(s, limit, tokens, rounds));
    }
  }

  // ----- The class -----

  class TokenLimiter {
    const limit: nat
    var events: seq<Event>
    ghost var gone: seq<Event>
    ghost var bills: seq<Bill>
    ghost var now: int
    ghost var steps: seq<Step>

    ghost function Snapshot(): State
      reads this
    {
      State(events, gone, bills, now)
    }

    /** The object is in a state that its calls so far can reach. */
    ghost predicate Valid()
      reads this
    {
      Reached(Snapshot(), limit, steps)
    }

    constructor (tokensPerMinute: nat)
      ensures limit == tokensPerMinute && Snapshot() == EMPTY && Valid()
    {
      limit := tokensPerMinute;
      events, gone, bills, now, steps := [], [], [], 0, [];
    }

    /** `_used`: drop the expired front of the deque and add up the rest. */
    method Used(at: int) returns (total: nat)
      requires Valid() && now <= at
      modifies this
      ensures Snapshot() == Prune(old(Snapshot()), at) && steps == old(steps)
      ensures total == Total(events) == Sum(bills, Amount, at)
    {
      UsedIsWindowSum(Snapshot(), limit, steps, at);
      now := at;
      while events != [] && at - events[0].at >= WINDOW_MS
        invariant now == at && Prune(Snapshot(), at) == Prune(old(Snapshot()), at) && steps == old(steps)
        decreases |events|
      {
        PopPrune(Snapshot(), at);
        gone, events := gone + [events[0]], events[1..];
      }
      assert Prune(Snapshot(), at) == Snapshot() by {
        assert events[0..] == events && gone + events[..0] == gone;
      }
      total := Total(events);
    }

    /** The body of the waiting loop: admit the request, or say how long to sleep. */
    method TryReserve(tokens: nat, at: int) returns (entry: Option<Event>, sleep: int)
      requires Valid() && now <= at
      modifies this
      ensures Valid() && Snapshot() == Next(old(Snapshot()), limit, Check(at, tokens))
      ensures entry ==
          if Admits(old(Snapshot()), limit, at, tokens) then Some(Event(at, Clamp(tokens, limit))) else None
      ensures entry.None? ==> events != [] && sleep == SleepMs(events[0], at)
    {
      ghost var before := Snapshot();
      ReachedStep(before, limit, steps, Check(at, tokens));
      var clamped := Clamp(tokens, limit);
      var used := Used(at);
      assert used + clamped <= limit <==> Admits(before, limit, at, tokens);
      steps := steps + [Check(at, tokens)];
      sleep := 0;
      if used + clamped <= limit {
        events, bills := events + [Event(at, clamped)], bills + [Bill(at, clamped, None)];
        entry := Some(Event(at, clamped));
      } else {
        FailedCheckHasOldest(before, limit, at, tokens);
        entry := None;
        sleep := SleepMs(events[0], at);
      }
    }

    /** One turn for a caller that knows the deques of its earlier failed checks. */
    method Turn(tokens: nat, at: int, ghost waits: seq<Wait>)
      returns (entry: Option<Event>, sleep: int, ghost grown: seq<Wait>)
      requires Valid() && now <= at
      requires waits != [] ==> Waiting(waits) && waits[|waits| - 1] == Wait(events, now) && events != []
      requires waits != [] ==> at >= now + SleepMs(events[0], now)
      modifies this
      ensures Valid() && now == at
      ensures entry.Some? ==>
          entry.value == Event(at, Clamp(tokens, limit)) && |events| > 0 && events[|events| - 1] == entry.value
      ensures bills == old(bills) + if entry.Some? then [Bill(at, Clamp(tokens, limit), None)] else []
      ensures entry.None? ==>
                && events != [] && sleep == SleepMs(events[0], at)
                && grown == waits + [Wait(events, at)] && Waiting(grown)
                && |grown| < 60 + |grown[0].events| && |events| <= |old(events)|
    {
      ghost var before := events;
      ReachedInv(Snapshot(), limit, steps);
      PruneInv(Snapshot(), limit, at);
      entry, sleep := TryReserve(tokens, at);
      grown := waits;
      if entry.None? {
        WaitsGrow(waits, before, Wait(events, at));
        grown := waits + [Wait(events, at)];
        BoundedWaiting(grown);
      }
    }

    /** `reserve` when no other task runs meanwhile: it returns after at most 60 + |events| sleeps, however late
        each sleep wakes up. */
    method Reserve(tokens: nat, start: int, oversleep: nat -> nat) returns (entry: Event, sleeps: nat)
      requires Valid() && now <= start
      modifies this
      ensures Valid() && events != [] && events[|events| - 1] == entry
      ensures entry.tokens == Clamp(tokens, limit) && entry.at == now >= start
      ensures bills == old(bills) + [Bill(entry.at, entry.tokens, None)]
      ensures sleeps <= 60 + |old(events)|
    {
      var at := start;
      ghost var waits: seq<Wait> := [];
      sleeps := 0;
      while true
        invariant Valid() && now <= at && start <= at && bills == old(bills) && sleeps == |waits|
        invariant waits == [] ==> events == old(events)
        invariant waits != [] ==>
                    && Waiting(waits) && |waits[0].events| <= |old(events)|
                    && waits[|waits| - 1] == Wait(events, now)
                    && events != [] && at >= now + SleepMs(events[0], now)
        invariant sleeps <= 60 + |old(events)|
        decreases 61 + |old(events)| - sleeps
      {
        var admitted, sleep;
        admitted, sleep, waits := Turn(tokens, at, waits);
        if admitted.Some? {
          return admitted.value, sleeps;
        }
        at := at + sleep + oversleep(sleeps);
        sleeps := sleeps + 1;
      }
    }

    /** `line` is the ledger line of the call that made the reservation `entry`. */
    method Settle(entry: Event, actual: nat, at: int, ghost line: nat)
      requires Valid() && Enabled(Snapshot(), Step.Settle(at, line, actual)) && entry == Reservation(bills[line])
      modifies this
      ensures Valid() && Snapshot() == Next(old(Snapshot()), limit, Step.Settle(at, line, actual))
    {
      ReachedStep(Snapshot(), limit, steps, Step.Settle(at, line, actual));
      steps := steps + [Step.Settle(at, line, actual)];
      var i := IndexOf(events, entry);
      if i.Some? {
        events := events[i.value := Event(entry.at, actual)];
        bills := bills[line := bills[line].(billed := Some(actual))];
      } else {
        events := events + [Event(at, actual)];
        bills := bills[line := bills[line].(billed := Some(entry.tokens))] + [Bill(at, 0, Some(actual))];
      }
      now := at;
    }
  }
}
