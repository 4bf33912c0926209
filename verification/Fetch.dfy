/** Fetching from many relays at once: one goroutine for each address, the relays' readers that
    filter duplicates through one shared map, and the goroutine that closes the output. */
module Fetch {

  /** An event that passed the duplicate check. claim is the id the check read from the raw message,
      eventId the id of the parsed event; sub numbers the subscriptions of one goroutine, from 1. */
  datatype Item = Item(claim: string, eventId: string, relay: nat, sub: nat, place: Place)

  datatype Place = InFlight | Held | Emitted | Lost

  datatype Pc = Connecting | Subscribing | Listening | Authenticating | Emitting(item: nat) | Exited

  datatype Fetcher = Fetcher(pc: Pc, hasAuthed: bool, subs: nat)

  datatype CloserPc = AwaitAll | Cancelling | Closing | Closed

  datatype State = State(
    fetchers: seq<Fetcher>, waiting: int, closer: CloserPc, cancelled: bool, authHandler: bool,
    seen: set<string>, items: seq<Item>, output: seq<nat>, closes: nat, sentOnClosed: bool)

  predicate Init(s: State, urls: nat) {
    && s.fetchers == seq(urls, i => Fetcher(Connecting, false, 0))
    && s.waiting == urls && s.closer == AwaitAll && !s.cancelled
    && s.seen == {} && s.items == [] && s.output == [] && s.closes == 0 && !s.sentOnClosed
  }

  // ----- steps -----

  datatype FetchStep =
    | Connected | Subscribed | AuthRequired | Authenticated | Receive(item: nat) | Emit
    | Stop(why: Why)

  /** The ways out of the goroutine. */
  datatype Why = ConnectFailed | SubscribeFailed | ContextDone | StoredEnded | EventsClosed
      | ClosedByRelay(authRequired: bool) | AuthFailed

  datatype Step =
    | FetcherDoes(i: nat, f: FetchStep)
    | RelaySends(i: nat, sub: nat, claim: string, eventId: string)
    | LoseItem(item: nat)
    | CancelOutside
    | AllDone | CancelAll | CloseOutput

  predicate StopEnabled(s: State, w: Fetcher, why: Why) {
    match why
    case ConnectFailed => w.pc == Connecting
    case SubscribeFailed => w.pc == Subscribing
    case ContextDone => (w.pc == Listening || w.pc.Emitting?) && s.cancelled
    case StoredEnded => w.pc == Listening
    case EventsClosed => w.pc == Listening
    case ClosedByRelay(authRequired) => w.pc == Listening && !(authRequired && s.authHandler && !w.hasAuthed)
    case AuthFailed => w.pc == Authenticating
  }

  predicate FetchEnabled(s: State, i: nat, f: FetchStep) {
    && i < |s.fetchers|
    && var w := s.fetchers[i];
    match f
    case Connected => w.pc == Connecting
    case Subscribed => w.pc == Subscribing
    case AuthRequired => w.pc == Listening && s.authHandler && !w.hasAuthed
    case Authenticated => w.pc == Authenticating
    case Receive(item) =>
      // only the current subscription's channel is read
      w.pc == Listening && item < |s.items| && s.items[item].place == InFlight && s.items[item].relay == i
          && s.items[item].sub == w.subs
    case Emit => w.pc.Emitting? && w.pc.item < |s.items|
    case Stop(why) => StopEnabled(s, w, why)
  }

  function NextFetcher(w: Fetcher, f: FetchStep): Fetcher {
    match f
    case Connected => w.(pc := Subscribing)
    case Subscribed => w.(pc := Listening, subs := w.subs + 1)
    case AuthRequired => w.(pc := Authenticating)
    case Authenticated => w.(pc := Subscribing, hasAuthed := true)
    case Receive(item) => w.(pc := Emitting(item))
    case Emit => w.(pc := Listening)
    case Stop(why) => w.(pc := Exited)
  }

  /** What becomes of the items. An item held by a goroutine that stops is lost. */
  function ItemsAfter(items: seq<Item>, w: Fetcher, f: FetchStep): seq<Item> {
    if f.Receive? && f.item < |items| then items[f.item := items[f.item].(place := Held)]
    else if f == Emit && w.pc.Emitting? && w.pc.item
        < |items| then items[w.pc.item := items[w.pc.item].(place := Emitted)]
    else if f.Stop? && w.pc.Emitting? && w.pc.item < |items| then items[w.pc.item := items[w.pc.item].(place := Lost)]
    else items
  }

  function FetchApply(s: State, i: nat, f: FetchStep): State
    requires FetchEnabled(s, i, f)
  {
    var w := s.fetchers[i];
    s.(fetchers := s.fetchers[i := NextFetcher(w, f)],
       items := ItemsAfter(s.items, w, f),
       output := if f == Emit then s.output + [w.pc.item] else s.output,
       sentOnClosed := s.sentOnClosed || (f == Emit && s.closes > 0),
       waiting := if f.Stop? then s.waiting - 1 else s.waiting)
  }

  /** The subscriptions the relay can send events for: a new one is known to the reader before the
      call that opens it returns. */
  function Opened(w: Fetcher): nat {
    if w.pc == Subscribing then w.subs + 1 else w.subs
  }

  predicate Enabled(s: State, step: Step) {
    match step
    case FetcherDoes(i, f) => FetchEnabled(s, i, f)
    case RelaySends(i, sub, claim, eventId) => i < |s.fetchers| && 1 <= sub <= Opened(s.fetchers[i])
    case LoseItem(item) => item < |s.items| && s.items[item].place == InFlight
    case CancelOutside => true
    case AllDone => s.closer == AwaitAll && s.waiting == 0
    case CancelAll => s.closer == Cancelling
    case CloseOutput => s.closer == Closing
  }

  /** A message whose id was already stored is skipped; otherwise storing the id and taking the
      message on is one atomic step of the shared map. */
  function Apply(s: State, step: Step): State
    requires Enabled(s, step)
  {
    match step
    case FetcherDoes(i, f) => FetchApply(s, i, f)
    case RelaySends(i, sub, claim, eventId) =>
      if claim in s.seen then s
      else s.(seen := s.seen + {claim}, items := s.items + [Item(claim, eventId, i, sub, InFlight)])
    case LoseItem(item) => s.(items := s.items[item := s.items[item].(place := Lost)])
    case CancelOutside => s.(cancelled := true)
    case AllDone => s.(closer := Cancelling)
    case CancelAll => s.(closer := Closing, cancelled := true)
    case CloseOutput => s.(closer := Closed, closes := s.closes + 1)
  }

  // ----- the invariant -----

  /** How many goroutines are still running. */
  ghost function Running(fetchers: seq<Fetcher>): nat {
    if fetchers == [] then 0
    else Running(fetchers[..|fetchers| - 1]) + (if fetchers[|fetchers| - 1].pc == Exited then 0 else 1)
  }

  /** One claim, one item. */
  predicate ClaimedOnce(seen: set<string>, items: seq<Item>) {
    && (forall t :: 0 <= t < |items| ==> items[t].claim in seen)
    && (forall t, u :: 0 <= t < u < |items| ==> items[t].claim != items[u].claim)
  }

  /** What a goroutine is about to emit is held, and came on its current subscription. */
  predicate HeldOnce(fetchers: seq<Fetcher>, items: seq<Item>) {
    forall i :: 0 <= i < |fetchers| && fetchers[i].pc.Emitting? ==>
      && fetchers[i].pc.item < |items| && items[fetchers[i].pc.item].place == Held
        && items[fetchers[i].pc.item].relay == i && items[fetchers[i].pc.item].sub == fetchers[i].subs
  }

  predicate OutputOnce(output: seq<nat>, items: seq<Item>) {
    && (forall k :: 0 <= k < |output| ==> output[k] < |items| && items[output[k]].place == Emitted)
    && (forall j, k :: 0 <= j < k < |output| ==> output[j] != output[k])
  }

  ghost predicate ClosedLast(fetchers: seq<Fetcher>, waiting: int, closer: CloserPc, closes: nat) {
    && waiting == Running(fetchers)
    && (closer != AwaitAll ==> waiting == 0)
    && closes == (if closer == Closed then 1 else 0)
  }

  /** At most one retry after authentication. */
  predicate RetriedOnce(fetchers: seq<Fetcher>) {
    forall i :: 0 <= i < |fetchers| ==>
      var w := fetchers[i];
      && w.subs <= (if w.hasAuthed then 2 else 1)
      && (w.pc == Connecting ==> w.subs == 0 && !w.hasAuthed)
      && (w.pc == Subscribing ==> w.subs == (if w.hasAuthed then 1 else 0))
      && (w.pc == Listening || w.pc.Emitting? ==> w.subs == (if w.hasAuthed then 2 else 1))
      && (w.pc == Authenticating ==> !w.hasAuthed && w.subs == 1)
  }

  ghost predicate Inv(s: State) {
    && ClaimedOnce(s.seen, s.items) && HeldOnce(s.fetchers, s.items) && OutputOnce(s.output, s.items)
    && ClosedLast(s.fetchers, s.waiting, s.closer, s.closes) && RetriedOnce(s.fetchers)
    && !s.sentOnClosed
  }

  lemma {:induction false} AllRunning(n: nat)
    ensures Running(seq(n, i => Fetcher(Connecting, false, 0))) == n
  {
    if n > 0 {
      var w := seq(n, i => Fetcher(Connecting, false, 0));
      AllRunning(n - 1);
      assert w[..n - 1] == seq(n - 1, i => Fetcher(Connecting, false, 0));
    }
  }

  lemma InitInv(s: State, urls: nat)
    requires Init(s, urls)
    ensures Inv(s)
  {
    AllRunning(urls);
  }

  /** Changing one goroutine changes the count by that goroutine. */
  lemma {:induction false} RunningAfter(fetchers: seq<Fetcher>, i: nat, w: Fetcher)
    requires i < |fetchers|
    ensures Running(fetchers[i := w]) == Running(fetchers) - (if fetchers[i].pc == Exited then 0 else 1)
      + (if w.pc == Exited then 0 else 1)
    decreases |fetchers|
  {
    var n := |fetchers| - 1;
    var now := fetchers[i := w];
    if i == n {
      assert now[..n] == fetchers[..n];
    } else {
      RunningAfter(fetchers[..n], i, w);
      assert now[..n] == fetchers[..n][i := w];
    }
  }

  lemma {:induction false} NoneRunning(fetchers: seq<Fetcher>, i: nat)
    requires i < |fetchers| && Running(fetchers) == 0
    ensures fetchers[i].pc == Exited
    decreases |fetchers|
  {
    var n := |fetchers| - 1;
    if i < n {
      NoneRunning(fetchers[..n], i);
    }
  }

  // ----- every step keeps it -----

  /** Two goroutines never hold the same item, because an item belongs to one relay's goroutine. */
  lemma FetchHeld(s: State, i: nat, f: FetchStep)
    requires Inv(s) && FetchEnabled(s, i, f)
    ensures var t := FetchApply(s, i, f); HeldOnce(t.fetchers, t.items)
  {
    hide ClaimedOnce, OutputOnce, ClosedLast, RetriedOnce;
  }

  lemma ItemsKeepClaims(items: seq<Item>, w: Fetcher, f: FetchStep)
    ensures var now := ItemsAfter(items, w, f);
      |now| == |items| && forall k :: 0 <= k < |items| ==>
          now[k].claim == items[k].claim && now[k].eventId == items[k].eventId
  {
  }

  lemma FetchOutput(s: State, i: nat, f: FetchStep)
    requires Inv(s) && FetchEnabled(s, i, f)
    ensures var t := FetchApply(s, i, f); OutputOnce(t.output, t.items) && ClaimedOnce(t.seen, t.items)
  {
    ItemsKeepClaims(s.items, s.fetchers[i], f);
    OutputStep(s.output, s.items, s.fetchers, i, f);
    hide HeldOnce, OutputOnce, ClosedLast, RetriedOnce, ItemsAfter;
  }

  lemma OutputStep(output: seq<nat>, items: seq<Item>, fetchers: seq<Fetcher>, i: nat, f: FetchStep)
    requires OutputOnce(output, items) && HeldOnce(fetchers, items) && i < |fetchers|
    requires f == Emit ==> fetchers[i].pc.Emitting?
    requires f.Receive? ==> f.item < |items| && items[f.item].place == InFlight
    ensures OutputOnce(if f == Emit then output + [fetchers[i].pc.item] else output, ItemsAfter(items, fetchers[i], f))
  {
  }

  lemma FetchRetry(fetchers: seq<Fetcher>, i: nat, f: FetchStep)
    requires RetriedOnce(fetchers) && i < |fetchers|
    requires match f
      case Connected => fetchers[i].pc == Connecting
      case Subscribed => fetchers[i].pc == Subscribing
      case AuthRequired => fetchers[i].pc == Listening && !fetchers[i].hasAuthed
      case Authenticated => fetchers[i].pc == Authenticating
      case Receive(item) => fetchers[i].pc == Listening
      case Emit => fetchers[i].pc.Emitting?
      case Stop(why) => true
    ensures RetriedOnce(fetchers[i := NextFetcher(fetchers[i], f)])
  {
    var now := fetchers[i := NextFetcher(fetchers[i], f)];
    assert forall k :: 0 <= k < |now| && k != i ==> now[k] == fetchers[k];
  }

  lemma FetchCount(s: State, i: nat, f: FetchStep)
    requires Inv(s) && FetchEnabled(s, i, f)
    ensures var t := FetchApply(s, i, f);
      ClosedLast(t.fetchers, t.waiting, t.closer, t.closes) && RetriedOnce(t.fetchers) && !t.sentOnClosed
  {
    RunningAfter(s.fetchers, i, NextFetcher(s.fetchers[i], f));
    if s.closer != AwaitAll {
      NoneRunning(s.fetchers, i);
    }
    hide ClaimedOnce, HeldOnce, OutputOnce, Running, ItemsAfter, RetriedOnce;
    FetchRetry(s.fetchers, i, f);
  }

  lemma RelayKeeps(s: State, step: Step)
    requires step.RelaySends? || step.LoseItem?
    requires Inv(s) && Enabled(s, step)
    ensures Inv(Apply(s, step))
  {
    hide ClosedLast, RetriedOnce;
  }

  lemma CloserKeeps(s: State, step: Step)
    requires step == CancelOutside || step == AllDone || step == CancelAll || step == CloseOutput
    requires Inv(s) && Enabled(s, step)
    ensures Inv(Apply(s, step))
  {
    hide ClaimedOnce, HeldOnce, OutputOnce, RetriedOnce;
  }

  lemma StepKeepsInv(s: State, step: Step)
    requires Inv(s) && Enabled(s, step)
    ensures Inv(Apply(s, step))
  {
    match step {
      case FetcherDoes(i, f) =>
        FetchHeld(s, i, f);
        FetchOutput(s, i, f);
        FetchCount(s, i, f);
        hide ClaimedOnce, HeldOnce, OutputOnce, ClosedLast, RetriedOnce;
      case RelaySends(i, sub, claim, eventId) => RelayKeeps(s, step);
      case LoseItem(item) => RelayKeeps(s, step);
      case _ => CloserKeeps(s, step);
    }
  }

  // ----- whole runs -----

  ghost predicate Leads(s: State, steps: seq<Step>, t: State)
    decreases |steps|
  {
    if steps == [] then s == t
    else Enabled(s, steps[0]) && Leads(Apply(s, steps[0]), steps[1..], t)
  }

  lemma {:induction false} RunKeepsInv(s: State, steps: seq<Step>, t: State)
    requires Inv(s) && Leads(s, steps, t)
    ensures Inv(t)
    decreases |steps|
  {
    hide Inv, Apply, Enabled;
    if steps != [] {
      StepKeepsInv(s, steps[0]);
      RunKeepsInv(Apply(s, steps[0]), steps[1..], t);
    }
  }

  /** Across all relays and retries no claimed id is emitted twice. */
  lemma EmittedOnce(s: State, urls: nat, steps: seq<Step>, t: State, j: nat, k: nat)
    requires Init(s, urls) && Leads(s, steps, t) && j < k < |t.output|
    ensures t.output[j] < |t.items| && t.output[k] < |t.items|
    ensures t.items[t.output[j]].claim != t.items[t.output[k]].claim
  {
    InitInv(s, urls);
    RunKeepsInv(s, steps, t);
    hide Leads, HeldOnce, ClosedLast, RetriedOnce;
  }

  /** Nothing that came on a subscription given up for another is emitted. */
  lemma EmittedFromCurrent(s: State, urls: nat, steps: seq<Step>, t: State, i: nat)
    requires Init(s, urls) && Leads(s, steps, t) && Enabled(t, FetcherDoes(i, Emit))
    ensures var item := t.fetchers[i].pc.item;
      t.items[item].relay == i && t.items[item].sub == t.fetchers[i].subs && item !in t.output
  {
    InitInv(s, urls);
    RunKeepsInv(s, steps, t);
    hide Leads, ClaimedOnce, ClosedLast, RetriedOnce;
  }

  /** Nor is an event, as long as all messages with one event claim one id, be it the event's or not. */
  lemma EventsEmittedOnce(s: State, urls: nat, steps: seq<Step>, t: State, j: nat, k: nat)
    requires Init(s, urls) && Leads(s, steps, t) && j < k < |t.output|
    requires forall x, y :: 0 <= x < |t.items| && 0 <= y < |t.items| && t.items[x].eventId == t.items[y].eventId ==>
      t.items[x].claim == t.items[y].claim
    ensures t.output[j] < |t.items| && t.output[k] < |t.items|
    ensures t.items[t.output[j]].eventId != t.items[t.output[k]].eventId
  {
    EmittedOnce(s, urls, steps, t, j, k);
  }

  /** Two items of one event have been emitted. */
  predicate EmittedTwice(t: State) {
    t.output == [0, 1] && |t.items| == 2 && t.items[0].eventId == t.items[1].eventId
  }

  /** One event sent under two claims is emitted twice. Its first copy here arrives before the call
      that subscribes returns, its second while the goroutine is busy with the first. */
  lemma EventEmittedTwice(s: State)
    requires Init(s, 1)
    ensures exists steps, t :: Leads(s, steps, t) && EmittedTwice(t)
  {
    hide *;
    var s1, s2, s3, s4 := FirstCopy(s);
    var run, t := SecondCopy(s4);
    run := LeadsFrom(s3, FetcherDoes(0, Receive(0)), run, t);
    run := LeadsFrom(s2, FetcherDoes(0, Subscribed), run, t);
    run := LeadsFrom(s1, RelaySends(0, 1, "a", "x"), run, t);
    run := LeadsFrom(s, FetcherDoes(0, Connected), run, t);
  }

  /** The first copy reaches the goroutine. */
  lemma FirstCopy(s: State) returns (s1: State, s2: State, s3: State, s4: State)
    requires Init(s, 1)
    ensures Enabled(s, FetcherDoes(0, Connected)) && s1 == Apply(s, FetcherDoes(0, Connected))
    ensures Enabled(s1, RelaySends(0, 1, "a", "x")) && s2 == Apply(s1, RelaySends(0, 1, "a", "x"))
    ensures Enabled(s2, FetcherDoes(0, Subscribed)) && s3 == Apply(s2, FetcherDoes(0, Subscribed))
    ensures Enabled(s3, FetcherDoes(0, Receive(0))) && s4 == Apply(s3, FetcherDoes(0, Receive(0)))
    ensures s4.fetchers == [Fetcher(Emitting(0), false, 1)] && s4.items == [Item("a", "x", 0, 1, Held)]
    ensures s4.seen == {"a"} && s4.output == []
  {
    s1 := s.(fetchers := [Fetcher(Subscribing, false, 0)]);
    s2 := s1.(seen := {"a"}, items := [Item("a", "x", 0, 1, InFlight)]);
    s3 := s2.(fetchers := [Fetcher(Listening, false, 1)]);
    s4 := s3.(fetchers := [Fetcher(Emitting(0), false, 1)], items := [Item("a", "x", 0, 1, Held)]);
  }

  /** The second copy is received once the first is out. */
  lemma SecondCopy(s: State) returns (run: seq<Step>, t: State)
    requires s.fetchers == [Fetcher(Emitting(0), false, 1)] && s.items == [Item("a", "x", 0, 1, Held)]
    requires s.seen == {"a"} && s.output == []
    ensures Leads(s, run, t) && EmittedTwice(t)
  {
    var s5 := Apply(s, RelaySends(0, 1, "b", "x"));
    var s6 := Apply(s5, FetcherDoes(0, Emit));
    var s7 := Apply(s6, FetcherDoes(0, Receive(1)));
    t := Apply(s7, FetcherDoes(0, Emit));
    assert Enabled(s, RelaySends(0, 1, "b", "x")) && Enabled(s5, FetcherDoes(0, Emit))
        && Enabled(s6, FetcherDoes(0, Receive(1))) && Enabled(s7, FetcherDoes(0, Emit));
    assert Leads(t, [], t) && EmittedTwice(t);
    hide *;
    run := LeadsFrom(s7, FetcherDoes(0, Emit), [], t);
    run := LeadsFrom(s6, FetcherDoes(0, Receive(1)), run, t);
    run := LeadsFrom(s5, FetcherDoes(0, Emit), run, t);
    run := LeadsFrom(s, RelaySends(0, 1, "b", "x"), run, t);
  }

  lemma LeadsFrom(s: State, step: Step, steps: seq<Step>, t: State) returns (run: seq<Step>)
    requires Enabled(s, step) && Leads(Apply(s, step), steps, t)
    ensures Leads(s, run, t)
  {
    hide Enabled, Apply;
    run := [step] + steps;
    assert run[1..] == steps;
  }

  /** The output is closed at most once, never before every goroutine has finished, and nothing is
      sent on it afterwards. */
  lemma ClosedOnceAndLast(s: State, urls: nat, steps: seq<Step>, t: State)
    requires Init(s, urls) && Leads(s, steps, t)
    ensures t.closes <= 1 && !t.sentOnClosed
    ensures t.closes == 1 ==> forall i :: 0 <= i < |t.fetchers| ==> t.fetchers[i].pc == Exited
  {
    InitInv(s, urls);
    RunKeepsInv(s, steps, t);
    if t.closes == 1 {
      forall i | 0 <= i < |t.fetchers|
        ensures t.fetchers[i].pc == Exited
      {
        NoneRunning(t.fetchers, i);
      }
    }
    hide Leads, HeldOnce, ClaimedOnce, OutputOnce, RetriedOnce, Running;
  }

  /** When every goroutine has finished the output can be closed, and no goroutine subscribes more
      than twice. */
  lemma CloseReachable(s: State, urls: nat, steps: seq<Step>, t: State)
    requires Init(s, urls) && Leads(s, steps, t)
    ensures t.closer == AwaitAll && (forall i :: 0 <= i < |t.fetchers| ==> t.fetchers[i].pc == Exited) ==>
      Enabled(t, AllDone)
    ensures forall i :: 0 <= i < |t.fetchers| ==> t.fetchers[i].subs <= 2
  {
    InitInv(s, urls);
    RunKeepsInv(s, steps, t);
    if forall i :: 0 <= i < |t.fetchers| ==> t.fetchers[i].pc == Exited {
      NoneLeft(t.fetchers);
    }
    hide Leads, HeldOnce, ClaimedOnce, OutputOnce, Running;
  }

  lemma {:induction false} NoneLeft(fetchers: seq<Fetcher>)
    requires forall i :: 0 <= i < |fetchers| ==> fetchers[i].pc == Exited
    ensures Running(fetchers) == 0
    decreases |fetchers|
  {
    if fetchers != [] {
      NoneLeft(fetchers[..|fetchers| - 1]);
    }
  }

  // ----- what remains possible -----

  /** Some continuation emits an item with this claim and event from relay i. */
  ghost predicate CanEmit(t: State, i: nat, claim: string, eventId: string) {
    exists run, u :: Leads(t, run, u) && JustEmitted(u, i, claim, eventId)
  }

  predicate JustEmitted(u: State, i: nat, claim: string, eventId: string) {
    && |u.output| > 0
    && var k := u.output[|u.output| - 1];
    k < |u.items| && u.items[k].relay == i && u.items[k].claim == claim && u.items[k].eventId == eventId
  }

  lemma EmitsBefore(t: State, step: Step, i: nat, claim: string, eventId: string)
    requires Enabled(t, step) && CanEmit(Apply(t, step), i, claim, eventId)
    ensures CanEmit(t, i, claim, eventId)
  {
    hide Enabled, Apply, JustEmitted;
    var steps, u :| Leads(Apply(t, step), steps, u) && JustEmitted(u, i, claim, eventId);
    var run := LeadsFrom(t, step, steps, u);
  }

  /** A message that arrives while the goroutine listens is received and emitted. */
  lemma ListenerEmits(t: State, i: nat, claim: string, eventId: string)
    requires i < |t.fetchers| && t.fetchers[i].pc == Listening && t.fetchers[i].subs >= 1 && claim !in t.seen
    ensures CanEmit(t, i, claim, eventId)
  {
    var sends := RelaySends(i, t.fetchers[i].subs, claim, eventId);
    var t1 := Apply(t, sends);
    var receives := FetcherDoes(i, Receive(|t.items|));
    var t2 := Apply(t1, receives);
    var t3 := Apply(t2, FetcherDoes(i, Emit));
    assert Leads(t3, [], t3) && JustEmitted(t3, i, claim, eventId);
    hide JustEmitted;
    EmitsBefore(t2, FetcherDoes(i, Emit), i, claim, eventId);
    EmitsBefore(t1, receives, i, claim, eventId);
    EmitsBefore(t, sends, i, claim, eventId);
  }

  /** The way from every place of the goroutine to the next subscription. */
  lemma RunningEmits(t: State, i: nat, claim: string, eventId: string)
    requires i < |t.fetchers| && t.fetchers[i].pc != Exited && claim !in t.seen
    requires var w := t.fetchers[i];
      && (w.pc == Listening || w.pc.Emitting? ==> w.subs >= 1)
      && (w.pc.Emitting? ==> w.pc.item < |t.items|)
    ensures CanEmit(t, i, claim, eventId)
    decreases match t.fetchers[i].pc case Connecting => 3 case Authenticating => 3 case Subscribing => 2
          case Emitting(_) => 1 case _ => 0
  {
    if t.fetchers[i].pc == Listening {
      ListenerEmits(t, i, claim, eventId);
    } else {
      var f := match t.fetchers[i].pc
        case Connecting => Connected
        case Authenticating => Authenticated
        case Subscribing => Subscribed
        case _ => Emit;
      RunningEmits(Apply(t, FetcherDoes(i, f)), i, claim, eventId);
      hide CanEmit;
      EmitsBefore(t, FetcherDoes(i, f), i, claim, eventId);
    }
  }

  /** As long as a relay's goroutine has not stopped, an id that nobody has claimed yet can still
      come out of it. */
  lemma NewIdEmitted(s: State, urls: nat, steps: seq<Step>, t: State, i: nat, claim: string, eventId: string)
    requires Init(s, urls) && Leads(s, steps, t)
    requires i < |t.fetchers| && t.fetchers[i].pc != Exited && claim !in t.seen
    ensures CanEmit(t, i, claim, eventId)
  {
    InitInv(s, urls);
    RunKeepsInv(s, steps, t);
    hide CanEmit, ClaimedOnce, OutputOnce, ClosedLast;
    RunningEmits(t, i, claim, eventId);
  }

  predicate Has(t: State, i: nat, w: Fetcher) {
    i < |t.fetchers| && t.fetchers[i] == w
  }

  /** A relay that asks for authentication is subscribed to once more, when there is a handler and
      it has not been tried yet. */
  lemma RetryReachable(t: State, i: nat)
    requires i < |t.fetchers| && t.fetchers[i].pc == Listening && t.authHandler && !t.fetchers[i].hasAuthed
    ensures exists run, u :: Leads(t, run, u) && Has(u, i, Fetcher(Listening, true, t.fetchers[i].subs + 1))
  {
    var t1 := Apply(t, FetcherDoes(i, AuthRequired));
    var t2 := Apply(t1, FetcherDoes(i, Authenticated));
    var t3 := Apply(t2, FetcherDoes(i, Subscribed));
    assert Leads(t3, [], t3) && Has(t3, i, Fetcher(Listening, true, t.fetchers[i].subs + 1));
    assert Enabled(t, FetcherDoes(i, AuthRequired)) && Enabled(t1, FetcherDoes(i, Authenticated))
      && Enabled(t2, FetcherDoes(i, Subscribed));
    hide *;
    var run := LeadsFrom(t2, FetcherDoes(i, Subscribed), [], t3);
    run := LeadsFrom(t1, FetcherDoes(i, Authenticated), run, t3);
    run := LeadsFrom(t, FetcherDoes(i, AuthRequired), run, t3);
  }

  /** Some continuation closes the output. */
  ghost predicate CanClose(t: State) {
    exists run, u :: Leads(t, run, u) && u.closes == 1
  }

  lemma ClosesBefore(t: State, step: Step)
    requires Enabled(t, step) && CanClose(Apply(t, step))
    ensures CanClose(t)
  {
    hide Enabled, Apply;
    var steps, u :| Leads(Apply(t, step), steps, u) && u.closes == 1;
    var run := LeadsFrom(t, step, steps, u);
  }

  lemma CloserCloses(t: State)
    requires t.closer != Closed ==> t.waiting == 0 && t.closes == 0
    requires t.closer == Closed ==> t.closes == 1
    ensures CanClose(t)
    decreases match t.closer case AwaitAll => 3 case Cancelling => 2 case Closing => 1 case Closed => 0
  {
    if t.closer == Closed {
      assert Leads(t, [], t);
    } else {
      var step := match t.closer case AwaitAll => AllDone case Cancelling => CancelAll case _ => CloseOutput;
      CloserCloses(Apply(t, step));
      hide CanClose;
      ClosesBefore(t, step);
    }
  }

  /** How a goroutine comes to its end when nobody cancels: what it holds is emitted first. */
  lemma OneStops(t: State, i: nat) returns (next: State)
    requires Inv(t) && i < |t.fetchers| && t.fetchers[i].pc != Exited
    ensures Inv(next) && Running(next.fetchers) < Running(t.fetchers)
    ensures CanClose(next) ==> CanClose(t)
  {
    var why := match t.fetchers[i].pc
      case Connecting => ConnectFailed
      case Subscribing => SubscribeFailed
      case Authenticating => AuthFailed
      case _ => StoredEnded;
    hide CanClose, ClaimedOnce, OutputOnce, ClosedLast, RetriedOnce, Running;
    var mid := t;
    if t.fetchers[i].pc.Emitting? {
      mid := Apply(t, FetcherDoes(i, Emit));
      StepKeepsInv(t, FetcherDoes(i, Emit));
      RunningAfter(t.fetchers, i, mid.fetchers[i]);
    }
    next := Apply(mid, FetcherDoes(i, Stop(why)));
    StepKeepsInv(mid, FetcherDoes(i, Stop(why)));
    RunningAfter(mid.fetchers, i, next.fetchers[i]);
    if CanClose(next) {
      ClosesBefore(mid, FetcherDoes(i, Stop(why)));
      if t.fetchers[i].pc.Emitting? {
        ClosesBefore(t, FetcherDoes(i, Emit));
      }
    }
  }

  lemma {:induction false} AllStop(t: State)
    requires Inv(t)
    ensures CanClose(t)
    decreases Running(t.fetchers)
  {
    hide CanClose, ClaimedOnce, HeldOnce, OutputOnce, RetriedOnce, Running;
    if i: nat :| i < |t.fetchers| && t.fetchers[i].pc != Exited {
      var next := OneStops(t, i);
      AllStop(next);
    } else {
      NoneLeft(t.fetchers);
      CloserCloses(t);
    }
  }

  /** From every reachable state the output can still be closed. */
  lemma EndReachable(s: State, urls: nat, steps: seq<Step>, t: State)
    requires Init(s, urls) && Leads(s, steps, t)
    ensures CanClose(t)
  {
    InitInv(s, urls);
    RunKeepsInv(s, steps, t);
    hide *;
    AllStop(t);
  }
}
