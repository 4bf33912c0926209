/** The life cycle of a subscription as interleaved steps of its goroutines: the relay's reader,
    one goroutine for each delivered event, the end-of-stored-events waiter, every caller of
    unsub, the CLOSED handlers, Fire, and the goroutine that closes the Events channel. */
module Subscription {

  // ----- states -----

  /** The relay's read loop. One message is handled after the other. */
  datatype ReaderPc = Idle | Found | Loaded(eosed: bool) | Ready(added: bool)

  datatype DeliveryPc = Waiting | Locked | Sending | Finishing | Releasing | Finished

  datatype Outcome = Undecided | Delivered | DroppedEarly | DroppedEnded

  /** before records that the event was dispatched before the end-of-stored-events message. */
  datatype Delivery = Delivery(pc: DeliveryPc, added: bool, before: bool, outcome: Outcome)

  datatype WaiterPc = NoWaiter | AwaitStored | Posting | Posted

  /** A caller of unsub; a CLOSED handler goes through the first two places first. */
  datatype CallerPc = AtReason | AtStore | AtCancel | AtSwap | AtClose | AtDelete | Ended

  datatype StartPc = AwaitDone | InUnsub | AtLock | Holding | Unlocking | Stopped

  datatype FirePc = NotFired | Writing | Fired

  datatype Holder = Free | ByDelivery(id: nat) | ByStart

  datatype State = State(
    live: bool, eosed: bool, cancelled: bool, registered: bool, storedCount: int, mu: Holder,
    eventsClosed: bool, closesWritten: nat, eosePosts: nat, sentOnClosed: bool,
    fire: FirePc, reader: ReaderPc, waiter: WaiterPc, starter: StartPc,
    deliveries: map<nat, Delivery>, callers: map<nat, CallerPc>)

  /** Caller 0 is the start goroutine's own unsub. */
  const START: nat := 0

  /** A prepared subscription whose start goroutine is waiting. */
  const PREPARED: State := State(false, false, false, true, 0, Free, false, 0, 0, false,
    NotFired, Idle, NoWaiter, AwaitDone, map[], map[START := AtCancel])

  predicate Init(s: State) {
    s == PREPARED
  }

  // ----- steps -----

  datatype FireStep = StoreLive | Written | WriteFailed | ContextEnds

  datatype ReaderStep = Find | Skip | LoadEosed | AddStored | ReadEose

  datatype DeliveryStep = Lock | CheckLive | Send | GiveUp | CountDown | Unlock

  datatype StartStep = Wake | Unsubbed | LockMu | CloseEvents | UnlockMu

  datatype Step =
    | FireDoes(f: FireStep)
    | ReaderDoes(r: ReaderStep)
    | Spawn(id: nat)
    | ReadClosed(id: nat)
    | DeliveryDoes(id: nat, d: DeliveryStep)
    | StoredDone | PostEose
    | CallUnsub(id: nat)
    | CallerMoves(id: nat)
    | StartDoes(p: StartStep)

  /** The start goroutine has not yet taken live down in its own unsub. */
  predicate InTime(s: State) {
    START in s.callers && (s.callers[START] == AtCancel || s.callers[START] == AtSwap)
  }

  /** Fire is called once. With late it may make the subscription live at any time. */
  predicate FireEnabled(s: State, f: FireStep, late: bool) {
    match f
    case StoreLive => s.fire == NotFired && (late || InTime(s))
    case Written => s.fire == Writing
    case WriteFailed => s.fire == Writing
    case ContextEnds => true
  }

  function FireApply(s: State, f: FireStep): State {
    match f
    case StoreLive => s.(live := true, fire := Writing)
    case Written => s.(fire := Fired)
    case WriteFailed => s.(fire := Fired, cancelled := true)
    case ContextEnds => s.(cancelled := true)
  }

  predicate ReaderEnabled(s: State, r: ReaderStep) {
    match r
    case Find => s.reader == Idle && s.registered
    case Skip => s.reader == Found
    case LoadEosed => s.reader == Found
    case AddStored => s.reader.Loaded?
    case ReadEose => s.reader == Found
  }

  function ReaderApply(s: State, r: ReaderStep): State
    requires ReaderEnabled(s, r)
  {
    match r
    case Find => s.(reader := Found)
    case Skip => s.(reader := Idle)
    case LoadEosed => s.(reader := Loaded(s.eosed))
    case AddStored =>
      if s.reader.eosed then s.(reader := Ready(false)) else s.(reader := Ready(true), storedCount := s.storedCount + 1)
    case ReadEose =>
      if s.eosed then s.(reader := Idle) else s.(reader := Idle, eosed := true, waiter := AwaitStored)
  }

  predicate DeliveryEnabled(s: State, id: nat, d: DeliveryStep) {
    && id in s.deliveries
    && var pc := s.deliveries[id].pc;
    match d
    case Lock => pc == Waiting && s.mu == Free
    case CheckLive => pc == Locked
    case Send => pc == Sending
    case GiveUp => pc == Sending && s.cancelled
    case CountDown => pc == Finishing
    case Unlock => pc == Releasing
  }

  function DropReason(s: State): Outcome {
    if s.fire == NotFired && !s.cancelled then DroppedEarly else DroppedEnded
  }

  function DeliveryAfter(s: State, d: DeliveryStep, was: Delivery): Delivery {
    match d
    case Lock => was.(pc := Locked)
    case CheckLive => if s.live then was.(pc := Sending) else was.(pc := Finishing, outcome := DropReason(s))
    case Send => was.(pc := Finishing, outcome := Delivered)
    case GiveUp => was.(pc := Finishing, outcome := DroppedEnded)
    case CountDown => was.(pc := Releasing)
    case Unlock => was.(pc := Finished)
  }

  function DeliveryApply(s: State, id: nat, d: DeliveryStep): State
    requires DeliveryEnabled(s, id, d)
  {
    var was := s.deliveries[id];
    s.(deliveries := s.deliveries[id := DeliveryAfter(s, d, was)],
       mu := if d == Lock then ByDelivery(id) else if d == Unlock then Free else s.mu,
       storedCount := if d == CountDown && was.added then s.storedCount - 1 else s.storedCount,
       sentOnClosed := s.sentOnClosed || (d == Send && s.eventsClosed))
  }

  /** One place further in unsub, or in the CLOSED handler in front of it. */
  function NextPc(pc: CallerPc, live: bool): CallerPc {
    match pc
    case AtReason => AtStore
    case AtStore => AtCancel
    case AtCancel => AtSwap
    case AtSwap => if live then AtClose else AtDelete
    case AtClose => AtDelete
    case AtDelete => Ended
    case Ended => Ended
  }

  function CallerApply(s: State, id: nat): State
    requires id in s.callers
  {
    var pc := s.callers[id];
    s.(callers := s.callers[id := NextPc(pc, s.live)],
       live := s.live && pc != AtStore && pc != AtSwap,
       cancelled := s.cancelled || pc == AtCancel,
       closesWritten := if pc == AtClose then s.closesWritten + 1 else s.closesWritten,
       registered := s.registered && pc != AtDelete)
  }

  predicate StartEnabled(s: State, p: StartStep) {
    match p
    case Wake => s.starter == AwaitDone && s.cancelled
    case Unsubbed => s.starter == InUnsub && START in s.callers && s.callers[START] == Ended
    case LockMu => s.starter == AtLock && s.mu == Free
    case CloseEvents => s.starter == Holding
    case UnlockMu => s.starter == Unlocking
  }

  function StartApply(s: State, p: StartStep): State {
    match p
    case Wake => s.(starter := InUnsub)
    case Unsubbed => s.(starter := AtLock)
    case LockMu => s.(starter := Holding, mu := ByStart)
    case CloseEvents => s.(starter := Unlocking, eventsClosed := true)
    case UnlockMu => s.(starter := Stopped, mu := Free)
  }

  predicate Enabled(s: State, step: Step, late: bool) {
    match step
    case FireDoes(f) => FireEnabled(s, f, late)
    case ReaderDoes(r) => ReaderEnabled(s, r)
    case Spawn(id) => s.reader.Ready? && id !in s.deliveries
    case ReadClosed(id) => s.reader == Found && id !in s.callers
    case DeliveryDoes(id, d) => DeliveryEnabled(s, id, d)
    case StoredDone => s.waiter == AwaitStored && s.storedCount == 0
    case PostEose => s.waiter == Posting
    case CallUnsub(id) => id !in s.callers
    case CallerMoves(id) => id in s.callers && s.callers[id] != Ended && (id == START ==> s.starter == InUnsub)
    case StartDoes(p) => StartEnabled(s, p)
  }

  function Apply(s: State, step: Step, late: bool): State
    requires Enabled(s, step, late)
  {
    match step
    case FireDoes(f) => FireApply(s, f)
    case ReaderDoes(r) => ReaderApply(s, r)
    case Spawn(id) => s.(reader := Idle, deliveries :=
        s.deliveries[id := Delivery(Waiting, s.reader.added, !s.eosed, Undecided)])
    case ReadClosed(id) => s.(reader := Idle, callers := s.callers[id := AtReason])
    case DeliveryDoes(id, d) => DeliveryApply(s, id, d)
    case StoredDone => s.(waiter := Posting)
    case PostEose => s.(waiter := Posted, eosePosts := s.eosePosts + 1)
    case CallUnsub(id) => s.(callers := s.callers[id := AtCancel])
    case CallerMoves(id) => CallerApply(s, id)
    case StartDoes(p) => StartApply(s, p)
  }

  // ----- the invariant -----

  /** The channel is closed only behind the start goroutine's own unsub; from there on the context
      is over and live stays false. */
  predicate StartInOrder(callers: map<nat, CallerPc>, starter: StartPc, cancelled: bool, live: bool,
        eventsClosed: bool) {
    && START in callers
    && (starter == AwaitDone ==> callers[START] == AtCancel)
    && (starter == AtLock || starter == Holding || starter == Unlocking || starter == Stopped ==>
      callers[START] == Ended)
    && callers[START] != AtReason && callers[START] != AtStore
    && (callers[START] != AtCancel ==> cancelled)
    && (callers[START] == AtClose || callers[START] == AtDelete || callers[START] == Ended ==> !live)
    && (eventsClosed <==> starter == Unlocking || starter == Stopped)
  }

  predicate InsideLock(pc: DeliveryPc) { pc == Locked || pc == Sending || pc == Finishing || pc == Releasing }

  /** The lock covers the check of live together with the send, and the close. */
  predicate LockHeld(deliveries: map<nat, Delivery>, mu: Holder, starter: StartPc, eventsClosed: bool) {
    && (forall id :: id in deliveries ==> (InsideLock(deliveries[id].pc) <==> mu == ByDelivery(id)))
    && (mu.ByDelivery? ==> mu.id in deliveries)
    && (mu == ByStart <==> starter == Holding || starter == Unlocking)
    && (forall id :: id in deliveries && deliveries[id].pc == Sending ==> !eventsClosed)
  }

  ghost function Claims(callers: map<nat, CallerPc>): set<nat> {
    set id | id in callers && callers[id] == AtClose
  }

  /** The right to write CLOSE appears once, with Fire, and passes from live to one caller. */
  ghost predicate CloseOnce(closesWritten: nat, callers: map<nat, CallerPc>, live: bool, fire: FirePc) {
    closesWritten + |Claims(callers)| + (if live then 1 else 0) <= (if fire == NotFired then 0 else 1)
  }

  predicate CountedPc(pc: DeliveryPc) { pc == Waiting || pc == Locked || pc == Sending || pc == Finishing }

  /** Deliveries that still count in the wait group. */
  ghost function Counted(deliveries: map<nat, Delivery>): set<nat> {
    set id | id in deliveries && deliveries[id].added && CountedPc(deliveries[id].pc)
  }

  ghost predicate StoredCounted(storedCount: int, deliveries: map<nat, Delivery>, reader: ReaderPc) {
    storedCount == |Counted(deliveries)| + (if reader == Ready(true) then 1 else 0)
  }

  /** The wait group grows only before the end-of-stored-events message. */
  predicate EoseInOrder(eosed: bool, waiter: WaiterPc, reader: ReaderPc, storedCount: int, eosePosts: nat) {
    && (eosed <==> waiter != NoWaiter)
    && (reader.Loaded? ==> reader.eosed == eosed)
    && (reader.Ready? ==> reader.added == !eosed)
    && (waiter == Posting || waiter == Posted ==> storedCount == 0)
    && eosePosts == (if waiter == Posted then 1 else 0)
  }

  predicate EarlyAdded(deliveries: map<nat, Delivery>) {
    forall id :: id in deliveries ==> deliveries[id].before == deliveries[id].added
  }

  /** The context has ended, or the subscription was live and is no longer. */
  predicate Over(cancelled: bool, fire: FirePc, live: bool) {
    cancelled || (fire != NotFired && !live)
  }

  predicate Decided(deliveries: map<nat, Delivery>, cancelled: bool, fire: FirePc, live: bool) {
    forall id :: id in deliveries ==>
      && (deliveries[id].outcome == Undecided <==>
        deliveries[id].pc == Waiting || deliveries[id].pc == Locked || deliveries[id].pc == Sending)
      && (deliveries[id].outcome == DroppedEnded ==> Over(cancelled, fire, live))
  }

  ghost predicate Inv(s: State) {
    && StartInOrder(s.callers, s.starter, s.cancelled, s.live, s.eventsClosed)
    && LockHeld(s.deliveries, s.mu, s.starter, s.eventsClosed)
    && CloseOnce(s.closesWritten, s.callers, s.live, s.fire)
    && StoredCounted(s.storedCount, s.deliveries, s.reader)
    && EoseInOrder(s.eosed, s.waiter, s.reader, s.storedCount, s.eosePosts)
    && EarlyAdded(s.deliveries)
    && Decided(s.deliveries, s.cancelled, s.fire, s.live)
    && !s.sentOnClosed
  }

  lemma InitInv(s: State)
    requires Init(s)
    ensures Inv(s)
  {
    assert Claims(s.callers) == {};
    assert Counted(s.deliveries) == {};
  }

  // ----- every step keeps it -----

  lemma FireKeeps(s: State, f: FireStep)
    requires Inv(s) && FireEnabled(s, f, false)
    ensures Inv(FireApply(s, f))
  {
    hide LockHeld, StoredCounted, EoseInOrder, EarlyAdded, Claims;
  }

  lemma ReaderKeeps(s: State, r: ReaderStep)
    requires Inv(s) && ReaderEnabled(s, r)
    ensures Inv(ReaderApply(s, r))
  {
    hide StartInOrder, LockHeld, CloseOnce, EarlyAdded, Decided, Counted;
  }

  lemma CountedAfter(deliveries: map<nat, Delivery>, id: nat, d: Delivery)
    ensures Counted(deliveries[id := d]) == if d.added && CountedPc(d.pc) then Counted(deliveries) + {id}
      else Counted(deliveries) - {id}
  {
  }

  lemma SpawnLock(s: State, id: nat, d: Delivery)
    requires LockHeld(s.deliveries, s.mu, s.starter, s.eventsClosed) && id !in s.deliveries && d.pc == Waiting
    ensures LockHeld(s.deliveries[id := d], s.mu, s.starter, s.eventsClosed)
  {
  }

  lemma SpawnCounted(storedCount: int, deliveries: map<nat, Delivery>, added: bool, id: nat, d: Delivery)
    requires StoredCounted(storedCount, deliveries, Ready(added)) && id !in deliveries && d.pc == Waiting
      && d.added == added
    ensures StoredCounted(storedCount, deliveries[id := d], Idle)
  {
    CountedAfter(deliveries, id, d);
    assert id !in Counted(deliveries);
  }

  lemma SpawnDecided(s: State, id: nat, d: Delivery)
    requires EarlyAdded(s.deliveries) && Decided(s.deliveries, s.cancelled, s.fire, s.live)
    requires d.pc == Waiting && d.outcome == Undecided && d.before == d.added
    ensures EarlyAdded(s.deliveries[id := d]) && Decided(s.deliveries[id := d], s.cancelled, s.fire, s.live)
  {
  }

  lemma SpawnKeeps(s: State, id: nat)
    requires Inv(s) && Enabled(s, Spawn(id), false)
    ensures Inv(Apply(s, Spawn(id), false))
  {
    var d := Delivery(Waiting, s.reader.added, !s.eosed, Undecided);
    hide StartInOrder, CloseOnce, Counted, LockHeld, StoredCounted, EarlyAdded, Decided;
    SpawnLock(s, id, d);
    SpawnCounted(s.storedCount, s.deliveries, s.reader.added, id, d);
    SpawnDecided(s, id, d);
  }

  lemma ClaimsAfter(callers: map<nat, CallerPc>, id: nat, pc: CallerPc)
    ensures Claims(callers[id := pc]) == if pc == AtClose then Claims(callers) + {id} else Claims(callers) - {id}
    ensures id in Claims(callers) <==> id in callers && callers[id] == AtClose
  {
  }

  lemma NewCallerStart(s: State, id: nat, pc: CallerPc)
    requires StartInOrder(s.callers, s.starter, s.cancelled, s.live, s.eventsClosed) && id !in s.callers
    ensures StartInOrder(s.callers[id := pc], s.starter, s.cancelled, s.live, s.eventsClosed)
  {
  }

  lemma NewCallerClose(s: State, id: nat, pc: CallerPc)
    requires CloseOnce(s.closesWritten, s.callers, s.live, s.fire) && id !in s.callers && pc != AtClose
    ensures CloseOnce(s.closesWritten, s.callers[id := pc], s.live, s.fire)
  {
    ClaimsAfter(s.callers, id, pc);
    hide Claims;
    assert Claims(s.callers) - {id} == Claims(s.callers);
  }

  lemma NewCallerKeeps(s: State, step: Step, id: nat)
    requires step == ReadClosed(id) || step == CallUnsub(id)
    requires Inv(s) && Enabled(s, step, false)
    ensures Inv(Apply(s, step, false))
  {
    hide LockHeld, EarlyAdded, Decided, Claims, Counted, StartInOrder, CloseOnce;
    NewCallerStart(s, id, AtReason);
    NewCallerStart(s, id, AtCancel);
    NewCallerClose(s, id, AtReason);
    NewCallerClose(s, id, AtCancel);
  }

  lemma CallerStart(s: State, id: nat)
    requires StartInOrder(s.callers, s.starter, s.cancelled, s.live, s.eventsClosed)
    requires id in s.callers && s.callers[id] != Ended && (id == START ==> s.starter == InUnsub)
    ensures var t := CallerApply(s, id); StartInOrder(t.callers, t.starter, t.cancelled, t.live, t.eventsClosed)
  {
  }

  lemma CallerClose(s: State, id: nat)
    requires CloseOnce(s.closesWritten, s.callers, s.live, s.fire) && id in s.callers
    ensures var t := CallerApply(s, id); CloseOnce(t.closesWritten, t.callers, t.live, t.fire)
  {
    hide Claims;
    var pc := s.callers[id];
    ClaimsAfter(s.callers, id, NextPc(pc, s.live));
    assert s.callers[id] == pc;
  }

  lemma CallerDecided(s: State, id: nat)
    requires Decided(s.deliveries, s.cancelled, s.fire, s.live) && id in s.callers
    ensures var t := CallerApply(s, id); Decided(t.deliveries, t.cancelled, t.fire, t.live)
  {
  }

  lemma CallerKeeps(s: State, id: nat)
    requires Inv(s) && Enabled(s, CallerMoves(id), false)
    ensures Inv(CallerApply(s, id))
  {
    hide LockHeld, StoredCounted, EoseInOrder, EarlyAdded, CloseOnce, StartInOrder, Decided;
    CallerStart(s, id);
    CallerClose(s, id);
    CallerDecided(s, id);
  }

  lemma StartKeeps(s: State, p: StartStep)
    requires Inv(s) && StartEnabled(s, p)
    ensures Inv(StartApply(s, p))
  {
    hide CloseOnce, StoredCounted, EoseInOrder, EarlyAdded, Decided;
  }

  lemma WaiterKeeps(s: State, step: Step)
    requires step == StoredDone || step == PostEose
    requires Inv(s) && Enabled(s, step, false)
    ensures Inv(Apply(s, step, false))
  {
    hide StartInOrder, LockHeld, CloseOnce, StoredCounted, EarlyAdded, Decided;
  }

  // A delivery touches four parts of the invariant; each has its lemma.

  lemma DeliveryLock(s: State, id: nat, d: DeliveryStep)
    requires Inv(s) && DeliveryEnabled(s, id, d)
    ensures var t := DeliveryApply(s, id, d);
      LockHeld(t.deliveries, t.mu, t.starter, t.eventsClosed) && !t.sentOnClosed
  {
    hide CloseOnce, StoredCounted, EoseInOrder, EarlyAdded, Decided;
  }

  lemma DeliveryCount(s: State, id: nat, d: DeliveryStep)
    requires Inv(s) && DeliveryEnabled(s, id, d)
    ensures var t := DeliveryApply(s, id, d);
      StoredCounted(t.storedCount, t.deliveries, t.reader)
          && EoseInOrder(t.eosed, t.waiter, t.reader, t.storedCount, t.eosePosts)
  {
    var was, now := s.deliveries[id], DeliveryAfter(s, d, s.deliveries[id]);
    CountedHas(s.deliveries, id);
    CountedMoves(s, d, was);
    hide StartInOrder, LockHeld, CloseOnce, EarlyAdded, Decided, Counted, DeliveryAfter;
    CountedChange(s.deliveries, id, now);
  }

  lemma CountedMoves(s: State, d: DeliveryStep, was: Delivery)
    requires match d
      case Lock => was.pc == Waiting
      case CheckLive => was.pc == Locked
      case Send => was.pc == Sending
      case GiveUp => was.pc == Sending
      case CountDown => was.pc == Finishing
      case Unlock => was.pc == Releasing
    ensures var now := DeliveryAfter(s, d, was);
      && now.added == was.added
      && (CountedPc(was.pc) <==> d != Unlock) && (CountedPc(now.pc) <==> d != Unlock && d != CountDown)
  {
  }

  lemma CountedChange(deliveries: map<nat, Delivery>, id: nat, now: Delivery)
    requires id in deliveries && now.added == deliveries[id].added
    ensures |Counted(deliveries[id := now])| == |Counted(deliveries)|
      - (if deliveries[id].added && CountedPc(deliveries[id].pc) then 1 else 0)
      + (if now.added && CountedPc(now.pc) then 1 else 0)
  {
    CountedAfter(deliveries, id, now);
    CountedHas(deliveries, id);
  }

  lemma CountedHas(deliveries: map<nat, Delivery>, id: nat)
    requires id in deliveries
    ensures id in Counted(deliveries) <==> deliveries[id].added && CountedPc(deliveries[id].pc)
    ensures id in Counted(deliveries) ==> |Counted(deliveries)| > 0
  {
  }

  lemma DeliveryDecided(s: State, id: nat, d: DeliveryStep)
    requires Inv(s) && DeliveryEnabled(s, id, d)
    ensures var t := DeliveryApply(s, id, d);
      EarlyAdded(t.deliveries) && Decided(t.deliveries, t.cancelled, t.fire, t.live)
  {
    hide StartInOrder, LockHeld, CloseOnce, StoredCounted, EoseInOrder;
  }

  lemma DeliveryKeeps(s: State, id: nat, d: DeliveryStep)
    requires Inv(s) && DeliveryEnabled(s, id, d)
    ensures Inv(DeliveryApply(s, id, d))
  {
    DeliveryLock(s, id, d);
    DeliveryCount(s, id, d);
    DeliveryDecided(s, id, d);
    hide StartInOrder, LockHeld, CloseOnce, StoredCounted, EoseInOrder, EarlyAdded, Decided;
  }

  lemma StepKeepsInv(s: State, step: Step)
    requires Inv(s) && Enabled(s, step, false)
    ensures Inv(Apply(s, step, false))
  {
    hide Inv;
    match step {
      case FireDoes(f) => FireKeeps(s, f);
      case ReaderDoes(r) => ReaderKeeps(s, r);
      case Spawn(id) => SpawnKeeps(s, id);
      case ReadClosed(id) => NewCallerKeeps(s, step, id);
      case DeliveryDoes(id, d) => DeliveryKeeps(s, id, d);
      case StoredDone => WaiterKeeps(s, step);
      case PostEose => WaiterKeeps(s, step);
      case CallUnsub(id) => NewCallerKeeps(s, step, id);
      case CallerMoves(id) => CallerKeeps(s, id);
      case StartDoes(p) => StartKeeps(s, p);
    }
  }

  // ----- whole runs -----

  /** steps lead from s to t, in any interleaving. */
  ghost predicate Leads(s: State, steps: seq<Step>, t: State, late: bool)
    decreases |steps|
  {
    if steps == [] then s == t
    else Enabled(s, steps[0], late) && Leads(Apply(s, steps[0], late), steps[1..], t, late)
  }

  lemma {:induction false} RunKeepsInv(s: State, steps: seq<Step>, t: State)
    requires Inv(s) && Leads(s, steps, t, false)
    ensures Inv(t)
    decreases |steps|
  {
    hide Inv, Apply, Enabled;
    if steps != [] {
      StepKeepsInv(s, steps[0]);
      RunKeepsInv(Apply(s, steps[0], false), steps[1..], t);
    }
  }

  /** In every run in which Fire makes the subscription live before the start goroutine takes live
      down, nothing is sent on the closed channel, at most one CLOSE is written and at most one signal
      is posted. */
  lemma SafeRuns(s: State, steps: seq<Step>, t: State)
    requires Init(s) && Leads(s, steps, t, false)
    ensures !t.sentOnClosed && t.closesWritten <= 1 && t.eosePosts <= 1
    ensures t.closesWritten == 1 ==> !t.live && t.fire != NotFired
  {
    InitInv(s);
    RunKeepsInv(s, steps, t);
    hide StartInOrder, LockHeld, StoredCounted, EarlyAdded, Decided, Apply, Enabled;
  }

  /** Runs in which Fire comes before the end of the context. */
  ghost predicate LeadsPromptly(s: State, steps: seq<Step>, t: State)
    decreases |steps|
  {
    if steps == [] then s == t
    else
      && (steps[0] == FireDoes(StoreLive) ==> !s.cancelled)
      && Enabled(s, steps[0], true) && LeadsPromptly(Apply(s, steps[0], true), steps[1..], t)
  }

  /** Before the end of the context Fire is in time, so all that holds of runs in time holds of
      these. */
  lemma {:induction false} PromptIsInTime(s: State, steps: seq<Step>, t: State)
    requires Inv(s) && LeadsPromptly(s, steps, t)
    ensures Leads(s, steps, t, false)
    decreases |steps|
  {
    if steps != [] {
      PromptStep(s, steps[0]);
      hide Inv, Apply, Enabled;
      StepKeepsInv(s, steps[0]);
      PromptIsInTime(Apply(s, steps[0], false), steps[1..], t);
    }
  }

  lemma PromptStep(s: State, step: Step)
    requires Inv(s) && Enabled(s, step, true) && (step == FireDoes(StoreLive) ==> !s.cancelled)
    ensures Enabled(s, step, false) && Apply(s, step, false) == Apply(s, step, true)
  {
    hide LockHeld, CloseOnce, StoredCounted, EoseInOrder, EarlyAdded, Decided;
  }

  lemma PromptRuns(s: State, steps: seq<Step>, t: State)
    requires Init(s) && LeadsPromptly(s, steps, t)
    ensures !t.sentOnClosed && t.closesWritten <= 1 && t.eosePosts <= 1
  {
    InitInv(s);
    PromptIsInTime(s, steps, t);
    SafeRuns(s, steps, t);
    hide *;
  }

  lemma NothingCounted(s: State, id: nat)
    requires Inv(s) && s.storedCount == 0 && id in s.deliveries && s.deliveries[id].before
    ensures s.deliveries[id].pc == Releasing || s.deliveries[id].pc == Finished
    ensures s.deliveries[id].outcome != Undecided
    ensures s.deliveries[id].outcome == DroppedEnded ==> Over(s.cancelled, s.fire, s.live)
  {
    CountedHas(s.deliveries, id);
    hide StartInOrder, LockHeld, CloseOnce, EoseInOrder, Counted;
  }

  /** Once the signal is posted, every event dispatched before the end-of-stored-events message has
      been delivered, or dropped because the subscription was over or not fired yet. */
  lemma EoseBarrier(s: State, steps: seq<Step>, t: State, id: nat)
    requires Init(s) && Leads(s, steps, t, false)
    requires t.eosePosts > 0 && id in t.deliveries && t.deliveries[id].before
    ensures var o := t.deliveries[id].outcome;
      o == Delivered || o == DroppedEarly || (o == DroppedEnded && Over(t.cancelled, t.fire, t.live))
    ensures t.deliveries[id].pc == Releasing || t.deliveries[id].pc == Finished
  {
    InitInv(s);
    RunKeepsInv(s, steps, t);
    hide StartInOrder, LockHeld, CloseOnce, StoredCounted, EarlyAdded, Decided, Apply, Enabled;
    NothingCounted(t, id);
  }

  /** The barrier holds before the signal is posted, not only afterwards. */
  lemma BarrierBeforePost(s: State, steps: seq<Step>, t: State, id: nat)
    requires Init(s) && Leads(s, steps, t, false)
    requires Enabled(t, PostEose, false) && id in t.deliveries && t.deliveries[id].before
    ensures t.eosePosts == 0 && t.deliveries[id].outcome != Undecided
  {
    InitInv(s);
    RunKeepsInv(s, steps, t);
    hide StartInOrder, LockHeld, CloseOnce, StoredCounted, EarlyAdded, Decided, Apply;
    NothingCounted(t, id);
  }

  // ----- why Fire must not come late -----

  predicate Goes(s: State, step: Step, t: State) {
    Enabled(s, step, true) && Apply(s, step, true) == t
  }

  lemma LeadsStep(s: State, step: Step, u: State, rest: seq<Step>, t: State) returns (run: seq<Step>)
    requires Goes(s, step, u) && Leads(u, rest, t, true)
    ensures Leads(s, run, t, true)
  {
    hide Enabled, Apply;
    run := [step] + rest;
    assert run[1..] == rest;
  }

  /** The states of a run in which Fire comes when the start goroutine is done: the reader holds an
      event meanwhile, and its delivery finds the subscription live and the channel closed. */
  const LATE_1: State := PREPARED.(reader := Found)
  const LATE_2: State := LATE_1.(cancelled := true)
  const LATE_3: State := LATE_2.(starter := InUnsub)
  const LATE_4: State := LATE_3.(callers := map[START := AtSwap])
  const LATE_5: State := LATE_4.(callers := map[START := AtDelete])
  const LATE_6: State := LATE_5.(registered := false, callers := map[START := Ended])
  const LATE_7: State := LATE_6.(starter := AtLock)
  const LATE_8: State := LATE_7.(mu := ByStart, starter := Holding)
  const LATE_9: State := LATE_8.(eventsClosed := true, starter := Unlocking)
  const LATE_10: State := LATE_9.(mu := Free, starter := Stopped)
  const LATE_11: State := LATE_10.(live := true, fire := Writing)
  const LATE_12: State := LATE_11.(reader := Loaded(false))
  const LATE_13: State := LATE_12.(reader := Ready(true), storedCount := 1)
  const LATE_14: State := LATE_13.(reader := Idle, deliveries := map[1 := Delivery(Waiting, true, true, Undecided)])
  const LATE_15: State := LATE_14.(mu := ByDelivery(1), deliveries := map[1 := Delivery(Locked, true, true, Undecided)])
  const LATE_16: State := LATE_15.(deliveries := map[1 := Delivery(Sending, true, true, Undecided)])
  const LATE_17: State :=
      LATE_16.(sentOnClosed := true, deliveries := map[1 := Delivery(Finishing, true, true, Delivered)])

  /** The context ends, and the start goroutine goes through its unsub with nothing live to close. */
  lemma StartUnsubscribes()
    ensures Goes(PREPARED, ReaderDoes(Find), LATE_1)
    ensures Goes(LATE_1, FireDoes(ContextEnds), LATE_2)
    ensures Goes(LATE_2, StartDoes(Wake), LATE_3)
    ensures Goes(LATE_3, CallerMoves(START), LATE_4)
    ensures Goes(LATE_4, CallerMoves(START), LATE_5)
    ensures Goes(LATE_5, CallerMoves(START), LATE_6)
    ensures Goes(LATE_6, StartDoes(Unsubbed), LATE_7)
  {
  }

  /** It closes the channel under the lock and is done. */
  lemma StartClosesEvents()
    ensures Goes(LATE_7, StartDoes(LockMu), LATE_8)
    ensures Goes(LATE_8, StartDoes(CloseEvents), LATE_9)
    ensures Goes(LATE_9, StartDoes(UnlockMu), LATE_10)
  {
  }

  /** Fire, and the reader turns to the event it has at hand. */
  lemma LateFire()
    ensures Goes(LATE_10, FireDoes(StoreLive), LATE_11)
    ensures Goes(LATE_11, ReaderDoes(LoadEosed), LATE_12)
    ensures Goes(LATE_12, ReaderDoes(AddStored), LATE_13)
  {
  }

  /** The event is sent. */
  lemma LateEvent()
    ensures Goes(LATE_13, Spawn(1), LATE_14)
    ensures Goes(LATE_14, DeliveryDoes(1, Lock), LATE_15)
    ensures Goes(LATE_15, DeliveryDoes(1, CheckLive), LATE_16)
    ensures Goes(LATE_16, DeliveryDoes(1, Send), LATE_17)
  {
  }

  /** With a late Fire an event can be sent on the closed channel. */
  lemma LateFireUnsafe(s: State)
    requires Init(s)
    ensures exists steps, t :: Leads(s, steps, t, true) && t.sentOnClosed
  {
    LateEnd();
    assert s == PREPARED;
    hide *;
    StartUnsubscribes();
    StartClosesEvents();
    LateFire();
    LateEvent();
    var run: seq<Step> := [];
    run := LeadsStep(LATE_16, DeliveryDoes(1, Send), LATE_17, run, LATE_17);
    run := LeadsStep(LATE_15, DeliveryDoes(1, CheckLive), LATE_16, run, LATE_17);
    run := LeadsStep(LATE_14, DeliveryDoes(1, Lock), LATE_15, run, LATE_17);
    run := LeadsStep(LATE_13, Spawn(1), LATE_14, run, LATE_17);
    run := LeadsStep(LATE_12, ReaderDoes(AddStored), LATE_13, run, LATE_17);
    run := LeadsStep(LATE_11, ReaderDoes(LoadEosed), LATE_12, run, LATE_17);
    run := LeadsStep(LATE_10, FireDoes(StoreLive), LATE_11, run, LATE_17);
    run := LeadsStep(LATE_9, StartDoes(UnlockMu), LATE_10, run, LATE_17);
    run := LeadsStep(LATE_8, StartDoes(CloseEvents), LATE_9, run, LATE_17);
    run := LeadsStep(LATE_7, StartDoes(LockMu), LATE_8, run, LATE_17);
    run := LeadsStep(LATE_6, StartDoes(Unsubbed), LATE_7, run, LATE_17);
    run := LeadsStep(LATE_5, CallerMoves(START), LATE_6, run, LATE_17);
    run := LeadsStep(LATE_4, CallerMoves(START), LATE_5, run, LATE_17);
    run := LeadsStep(LATE_3, CallerMoves(START), LATE_4, run, LATE_17);
    run := LeadsStep(LATE_2, StartDoes(Wake), LATE_3, run, LATE_17);
    run := LeadsStep(LATE_1, FireDoes(ContextEnds), LATE_2, run, LATE_17);
    run := LeadsStep(PREPARED, ReaderDoes(Find), LATE_1, run, LATE_17);
    assert Leads(PREPARED, run, LATE_17, true);
  }

  lemma LateEnd()
    ensures Leads(LATE_17, [], LATE_17, true) && LATE_17.sentOnClosed
  {
  }

  // ----- when a late Fire does harm -----

  /** Some continuation sends on the closed channel. */
  ghost predicate CanViolate(s: State) {
    exists steps, t :: Leads(s, steps, t, true) && t.sentOnClosed
  }

  predicate HasDelivery(s: State, pc: DeliveryPc) {
    exists id :: id in s.deliveries && s.deliveries[id].pc == pc
  }

  /** An event can still reach the check of live behind the close: the reader can still find the
      subscription or has it at hand, or a delivery waits for the lock, or has it after the close. */
  predicate Exposed(s: State) {
    s.registered || s.reader != Idle || HasDelivery(s, Waiting) || (s.eventsClosed && HasDelivery(s, Locked))
  }

  lemma ViolatesBefore(s: State, step: Step)
    requires Enabled(s, step, true) && CanViolate(Apply(s, step, true))
    ensures CanViolate(s)
  {
    hide Apply, Enabled;
    var steps, t :| Leads(Apply(s, step, true), steps, t, true) && t.sentOnClosed;
    var run := LeadsStep(s, step, Apply(s, step, true), steps, t);
  }

  /** The start goroutine is past its swap, and what it holds and has closed is in order. */
  predicate StartPast(s: State) {
    && START in s.callers
    && (s.starter == InUnsub ==> s.callers[START] == AtDelete || s.callers[START] == Ended)
    && s.starter != AwaitDone
    && (s.eventsClosed <==> s.starter == Unlocking || s.starter == Stopped)
  }

  /** A delivery behind the close sends. */
  lemma LockedViolates(s: State, id: nat)
    requires id in s.deliveries && s.deliveries[id].pc == Locked && s.live && s.eventsClosed
    ensures CanViolate(s)
  {
    var s1 := Apply(s, DeliveryDoes(id, CheckLive), true);
    var s2 := Apply(s1, DeliveryDoes(id, Send), true);
    assert Leads(s2, [], s2, true) && s2.sentOnClosed;
    ViolatesBefore(s1, DeliveryDoes(id, Send));
    ViolatesBefore(s, DeliveryDoes(id, CheckLive));
  }

  lemma WaitingViolates(s: State, id: nat)
    requires id in s.deliveries && s.deliveries[id].pc == Waiting && s.live && s.eventsClosed && s.mu == Free
    ensures CanViolate(s)
  {
    LockedViolates(Apply(s, DeliveryDoes(id, Lock), true), id);
    ViolatesBefore(s, DeliveryDoes(id, Lock));
  }

  /** With the lock at its disposal the start goroutine closes the channel in front of the delivery. */
  lemma CloseThenSend(s: State, id: nat)
    requires id in s.deliveries && s.deliveries[id].pc == Waiting && s.live && StartPast(s)
    requires s.mu == (if s.starter == Holding || s.starter == Unlocking then ByStart else Free)
    ensures CanViolate(s)
    decreases match s.starter case AwaitDone => 6 case InUnsub => 5 case AtLock => 3 case Holding => 2
          case Unlocking => 1 case Stopped => 0,
      if START in s.callers && s.callers[START] == Ended then 0 else 1
  {
    if s.starter == Stopped {
      WaitingViolates(s, id);
    } else {
      var step := match s.starter
        case InUnsub => if s.callers[START] == Ended then StartDoes(Unsubbed) else CallerMoves(START)
        case AtLock => StartDoes(LockMu)
        case Holding => StartDoes(CloseEvents)
        case _ => StartDoes(UnlockMu);
      CloseThenSend(Apply(s, step, true), id);
      ViolatesBefore(s, step);
    }
  }

  /** A delivery that has the lock finishes first. */
  lemma ReleaseThenClose(s: State, id: nat, holder: nat)
    requires id in s.deliveries && s.deliveries[id].pc == Waiting && s.live && StartPast(s)
    requires holder in s.deliveries && InsideLock(s.deliveries[holder].pc) && s.mu == ByDelivery(holder)
    requires s.starter != Holding && s.starter != Unlocking
    ensures CanViolate(s)
    decreases match s.deliveries[holder].pc case Locked => 3 case Sending => 2 case Finishing => 1 case _ => 0
  {
    var step := match s.deliveries[holder].pc
      case Locked => DeliveryDoes(holder, CheckLive)
      case Sending => DeliveryDoes(holder, Send)
      case Finishing => DeliveryDoes(holder, CountDown)
      case _ => DeliveryDoes(holder, Unlock);
    var next := HolderMoves(s, id, holder, step);
    hide Apply, Enabled, StartPast, CanViolate;
    if s.deliveries[holder].pc == Releasing {
      CloseThenSend(next, id);
    } else {
      ReleaseThenClose(next, id, holder);
    }
    ViolatesBefore(s, step);
  }

  /** One step of the delivery that has the lock leaves everything else in place. */
  lemma HolderMoves(s: State, id: nat, holder: nat, step: Step) returns (next: State)
    requires id in s.deliveries && s.deliveries[id].pc == Waiting && s.live && StartPast(s)
    requires holder in s.deliveries && s.mu == ByDelivery(holder)
    requires match s.deliveries[holder].pc
      case Locked => step == DeliveryDoes(holder, CheckLive)
      case Sending => step == DeliveryDoes(holder, Send)
      case Finishing => step == DeliveryDoes(holder, CountDown)
      case Releasing => step == DeliveryDoes(holder, Unlock)
      case _ => false
    ensures Enabled(s, step, true) && next == Apply(s, step, true)
    ensures id in next.deliveries && next.deliveries[id].pc == Waiting && next.live && StartPast(next)
      && next.starter == s.starter
    ensures holder in next.deliveries
    ensures s.deliveries[holder].pc == Locked ==> next.deliveries[holder].pc == Sending
    ensures s.deliveries[holder].pc == Sending ==> next.deliveries[holder].pc == Finishing
    ensures s.deliveries[holder].pc == Finishing ==> next.deliveries[holder].pc == Releasing
    ensures next.mu == if s.deliveries[holder].pc == Releasing then Free else s.mu
  {
    next := Apply(s, step, true);
  }

  lemma AnyWaitingViolates(s: State, id: nat)
    requires id in s.deliveries && s.deliveries[id].pc == Waiting && s.live && StartPast(s)
    requires LockHeld(s.deliveries, s.mu, s.starter, s.eventsClosed)
    ensures CanViolate(s)
  {
    hide CanViolate;
    if s.mu.ByDelivery? {
      ReleaseThenClose(s, id, s.mu.id);
    } else {
      CloseThenSend(s, id);
    }
  }

  ghost function Largest(ids: set<nat>): (m: nat)
    ensures forall id :: id in ids ==> id <= m
  {
    if ids == {} then 0
    else
      var id :| id in ids;
      var rest := Largest(ids - {id});
      assert forall x :: x in ids ==> x == id || x in ids - {id};
      if id > rest then id else rest
  }

  /** An event at hand becomes a waiting delivery. */
  lemma AtHandViolates(s: State)
    requires (s.reader != Idle || s.registered) && s.live && StartPast(s)
    requires LockHeld(s.deliveries, s.mu, s.starter, s.eventsClosed)
    ensures CanViolate(s)
    decreases match s.reader case Idle => 3 case Found => 2 case Loaded(_) => 1 case Ready(_) => 0
  {
    hide LockHeld;
    if s.reader.Ready? {
      var id := Largest(s.deliveries.Keys) + 1;
      var d := Delivery(Waiting, s.reader.added, !s.eosed, Undecided);
      SpawnLock(s, id, d);
      AnyWaitingViolates(Apply(s, Spawn(id), true), id);
      ViolatesBefore(s, Spawn(id));
    } else {
      var r := match s.reader case Idle => Find case Found => LoadEosed case _ => AddStored;
      AtHandViolates(Apply(s, ReaderDoes(r), true));
      ViolatesBefore(s, ReaderDoes(r));
    }
  }

  // What keeps the channel safe when no event can reach the check behind the close.

  predicate Sheltered(s: State) {
    && !Exposed(s) && LockHeld(s.deliveries, s.mu, s.starter, s.eventsClosed) && StartPast(s)
    && s.fire != NotFired && !s.sentOnClosed
  }

  lemma ShelteredDelivery(s: State, id: nat, d: DeliveryStep)
    requires Sheltered(s) && DeliveryEnabled(s, id, d)
    ensures Sheltered(DeliveryApply(s, id, d))
  {
    ShelteredLock(s, id, d);
    var t := DeliveryApply(s, id, d);
    hide LockHeld, StartPast;
    assert forall k :: k in t.deliveries && k != id ==> k in s.deliveries && t.deliveries[k] == s.deliveries[k];
  }

  lemma ShelteredLock(s: State, id: nat, d: DeliveryStep)
    requires Sheltered(s) && DeliveryEnabled(s, id, d)
    ensures var t := DeliveryApply(s, id, d);
      LockHeld(t.deliveries, t.mu, t.starter, t.eventsClosed) && StartPast(t) && !t.sentOnClosed
  {
    assert s.deliveries[id].pc != Waiting;
    hide Exposed;
  }

  lemma ShelteredStart(s: State, p: StartStep)
    requires Sheltered(s) && StartEnabled(s, p)
    ensures Sheltered(StartApply(s, p))
  {
  }

  lemma ShelteredCaller(s: State, step: Step)
    requires step.CallUnsub? || step.CallerMoves?
    requires Sheltered(s) && Enabled(s, step, true)
    ensures Sheltered(Apply(s, step, true))
  {
    hide LockHeld;
  }

  lemma ShelteredStep(s: State, step: Step)
    requires Sheltered(s) && Enabled(s, step, true)
    ensures Sheltered(Apply(s, step, true))
  {
    match step {
      case DeliveryDoes(id, d) => ShelteredDelivery(s, id, d);
      case StartDoes(p) => ShelteredStart(s, p);
      case CallUnsub(id) => ShelteredCaller(s, step);
      case CallerMoves(id) => ShelteredCaller(s, step);
      case FireDoes(f) => ShelteredFire(s, f);
      case StoredDone => ShelterKept(s, Apply(s, step, true));
      case PostEose => ShelterKept(s, Apply(s, step, true));
      case _ => assert false;
    }
    hide *;
  }

  lemma ShelteredFire(s: State, f: FireStep)
    requires Sheltered(s) && FireEnabled(s, f, true)
    ensures Sheltered(FireApply(s, f))
  {
    hide LockHeld, StartPast;
    assert FireApply(s, f).fire != NotFired;
    ShelterKept(s, FireApply(s, f));
  }

  /** Neither live, the context nor the waiter matters. */
  lemma ShelterKept(s: State, t: State)
    requires Sheltered(s) && t.fire != NotFired
    requires t.deliveries == s.deliveries && t.mu == s.mu && t.starter == s.starter && t.callers == s.callers
    requires t.registered == s.registered && t.reader == s.reader
    requires t.eventsClosed == s.eventsClosed && t.sentOnClosed == s.sentOnClosed
    ensures Sheltered(t)
  {
    hide LockHeld;
  }

  lemma {:induction false} ShelteredRun(s: State, steps: seq<Step>, t: State)
    requires Sheltered(s) && Leads(s, steps, t, true)
    ensures !t.sentOnClosed
    decreases |steps|
  {
    if steps != [] {
      hide Apply, Enabled;
      ShelteredStep(s, steps[0]);
      hide Sheltered;
      ShelteredRun(Apply(s, steps[0], true), steps[1..], t);
    }
  }

  /** Fire after the start goroutine has taken live down: an event can then be sent on the closed
      channel if and only if one can still reach the check of live behind the close. */
  lemma LateFireFrontier(s: State, steps: seq<Step>, t: State)
    requires Init(s) && Leads(s, steps, t, false)
    requires t.fire == NotFired && !InTime(t)
    ensures CanViolate(Apply(t, FireDoes(StoreLive), true)) <==> Exposed(t)
  {
    InitInv(s);
    RunKeepsInv(s, steps, t);
    LateStart(t);
  }

  lemma LateStart(t: State)
    requires Inv(t) && t.fire == NotFired && !InTime(t)
    ensures CanViolate(Apply(t, FireDoes(StoreLive), true)) <==> Exposed(t)
  {
    var u := Apply(t, FireDoes(StoreLive), true);
    PastSwap(t);
    hide Inv, LockHeld;
    if t.registered || t.reader != Idle {
      AtHandViolates(u);
    } else if HasDelivery(t, Waiting) {
      var id :| id in t.deliveries && t.deliveries[id].pc == Waiting;
      AnyWaitingViolates(u, id);
    } else if t.eventsClosed && HasDelivery(t, Locked) {
      var id :| id in t.deliveries && t.deliveries[id].pc == Locked;
      LockedViolates(u, id);
    } else {
      assert Sheltered(u);
      forall run, v | Leads(u, run, v, true)
        ensures !v.sentOnClosed
      {
        ShelteredRun(u, run, v);
      }
    }
  }

  lemma PastSwap(t: State)
    requires Inv(t) && t.fire == NotFired && !InTime(t)
    ensures StartPast(t) && !t.live && LockHeld(t.deliveries, t.mu, t.starter, t.eventsClosed) && !t.sentOnClosed
  {
    ClaimsAfter(t.callers, START, AtClose);
    assert Claims(t.callers) == {};
    hide LockHeld, StoredCounted, EoseInOrder, EarlyAdded, Decided, Claims;
  }
}
