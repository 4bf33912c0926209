/** What a subscription can still do: every promise of its life cycle that only says what does not
    happen has its counterpart here, a continuation in which the thing happens. */
module SubscriptionProgress {
  import opened Subscription

  // ----- runs -----

  lemma {:induction false} LeadsJoin(s: State, first: seq<Step>, m: State, second: seq<Step>, t: State)
    requires Leads(s, first, m, false) && Leads(m, second, t, false)
    ensures Leads(s, first + second, t, false)
    decreases |first|
  {
    hide Enabled, Apply;
    if first == [] {
      assert first + second == second;
    } else {
      LeadsJoin(Apply(s, first[0], false), first[1..], m, second, t);
      assert (first + second)[1..] == first[1..] + second;
    }
  }

  lemma LeadsOne(s: State, step: Step)
    requires Enabled(s, step, false)
    ensures Leads(s, [step], Apply(s, step, false), false)
  {
    hide Enabled, Apply;
    assert [step][1..] == [];
  }

  lemma LeadsNone(s: State)
    ensures Leads(s, [], s, false)
  {
  }

  /** No event is handed to a consumer. */
  predicate Quiet(run: seq<Step>) {
    forall i :: 0 <= i < |run| ==> !(run[i].DeliveryDoes? && run[i].d == Send)
  }

  // ----- the lock can be had -----

  /** How much the holder of the lock still has to do. */
  function LockRank(s: State): nat {
    match s.mu
    case Free => 0
    case ByStart => if s.starter == Holding then 2 else 1
    case ByDelivery(id) =>
      if id !in s.deliveries then 5 else
        match s.deliveries[id].pc
        case Locked => 4
        case Sending => 3
        case Finishing => 2
        case _ => 1
  }

  /** Nothing but the deliveries, the lock and the start goroutine has moved. */
  predicate Aside(s: State, t: State) {
    t.(deliveries := s.deliveries, mu := s.mu, storedCount := s.storedCount, starter := s.starter,
       eventsClosed := s.eventsClosed) == s
  }

  /** Deliveries go on with what they were about. */
  predicate GoOn(s: map<nat, Delivery>, t: map<nat, Delivery>) {
    && s.Keys == t.Keys
    && forall id :: id in s ==>
      && t[id].added == s[id].added && (s[id].pc == Waiting ==> t[id] == s[id])
      && (CountedPc(t[id].pc) ==> CountedPc(s[id].pc))
  }

  /** The next step of the holder. */
  function HolderNext(s: State): Step
    requires s.mu != Free && (s.mu.ByDelivery? ==> s.mu.id in s.deliveries)
  {
    if s.mu == ByStart then StartDoes(if s.starter == Holding then CloseEvents else UnlockMu)
    else DeliveryDoes(s.mu.id, match s.deliveries[s.mu.id].pc
      case Locked => CheckLive
      case Sending => if s.cancelled then GiveUp else Send
      case Finishing => CountDown
      case _ => Unlock)
  }

  predicate HolderMoved(s: State, t: State) {
    && LockRank(t) < LockRank(s) && Aside(s, t) && GoOn(s.deliveries, t.deliveries)
    && (t.mu == Free || t.mu == s.mu)
    && (s.mu.ByDelivery? && t.mu == Free ==> s.mu.id in t.deliveries && t.deliveries[s.mu.id].pc == Finished)
    && t.starter == (if s.starter == Holding then Unlocking else if s.starter == Unlocking then Stopped else s.starter)
  }

  lemma HolderStep(s: State)
    requires Inv(s) && s.mu != Free
    ensures s.mu.ByDelivery? ==> s.mu.id in s.deliveries
    ensures Enabled(s, HolderNext(s), false) && HolderMoved(s, Apply(s, HolderNext(s), false))
    ensures s.cancelled ==> Quiet([HolderNext(s)])
  {
    LockIs(s);
    hide Inv;
    if s.mu == ByStart {
      StartHolder(s);
    } else {
      DeliveryHolder(s, s.mu.id);
    }
    hide HolderMoved, Enabled, Apply;
  }

  lemma LockIs(s: State)
    requires Inv(s)
    ensures s.mu == ByStart <==> s.starter == Holding || s.starter == Unlocking
    ensures s.mu.ByDelivery? ==> s.mu.id in s.deliveries && InsideLock(s.deliveries[s.mu.id].pc)
    ensures s.mu.ByDelivery? && s.deliveries[s.mu.id].pc == Sending ==> !s.eventsClosed
  {
    hide StartInOrder, CloseOnce, StoredCounted, EoseInOrder, EarlyAdded, Decided;
  }

  lemma StartHolder(s: State)
    requires s.mu == ByStart && (s.starter == Holding || s.starter == Unlocking)
    ensures Enabled(s, HolderNext(s), false) && HolderMoved(s, Apply(s, HolderNext(s), false))
  {
  }

  lemma DeliveryHolder(s: State, id: nat)
    requires s.mu == ByDelivery(id) && id in s.deliveries && InsideLock(s.deliveries[id].pc)
    requires s.starter != Holding && s.starter != Unlocking && (s.deliveries[id].pc == Sending ==> !s.eventsClosed)
    ensures Enabled(s, HolderNext(s), false) && HolderMoved(s, Apply(s, HolderNext(s), false))
  {
    var now := HolderAfter(s, id);
    var t := Apply(s, HolderNext(s), false);
    hide Apply, DeliveryAfter, HolderNext, Enabled, GoOn;
    OneGoesOn(s.deliveries, id, now);
    hide InsideLock;
    assert LockRank(t) < LockRank(s);
  }

  /** What the holder's step does to it and to the lock. */
  lemma HolderAfter(s: State, id: nat) returns (now: Delivery)
    requires s.mu == ByDelivery(id) && id in s.deliveries && InsideLock(s.deliveries[id].pc)
    requires s.deliveries[id].pc == Sending ==> !s.eventsClosed
    ensures Enabled(s, HolderNext(s), false)
    ensures var was, t := s.deliveries[id], Apply(s, HolderNext(s), false);
      && t == s.(deliveries := s.deliveries[id := now], mu := if was.pc == Releasing then Free else s.mu,
         storedCount := t.storedCount)
      && now.added == was.added && (now.pc == Finished <==> was.pc == Releasing)
      && (was.pc == Locked ==> now.pc == Sending || now.pc == Finishing)
      && (was.pc == Sending ==> now.pc == Finishing) && (was.pc == Finishing ==> now.pc == Releasing)
  {
    now := DeliveryAfter(s, HolderNext(s).d, s.deliveries[id]);
  }

  lemma OneGoesOn(deliveries: map<nat, Delivery>, id: nat, now: Delivery)
    requires id in deliveries && deliveries[id].pc != Waiting && now.added == deliveries[id].added
    requires CountedPc(now.pc) ==> CountedPc(deliveries[id].pc)
    ensures GoOn(deliveries, deliveries[id := now])
  {
  }

  lemma GoOnTrans(s: map<nat, Delivery>, t: map<nat, Delivery>, u: map<nat, Delivery>)
    requires GoOn(s, t) && GoOn(t, u)
    ensures GoOn(s, u)
  {
  }

  /** Whoever holds the lock gives it back. */
  lemma FreeLock(s: State) returns (run: seq<Step>, t: State)
    requires Inv(s)
    ensures Leads(s, run, t, false) && Inv(t) && t.mu == Free && Aside(s, t) && GoOn(s.deliveries, t.deliveries)
    ensures s.mu.ByDelivery? ==> s.mu.id in t.deliveries && t.deliveries[s.mu.id].pc == Finished
    ensures t.starter == if s.starter == Holding || s.starter == Unlocking then Stopped else s.starter
    ensures s.cancelled ==> Quiet(run)
    decreases LockRank(s)
  {
    if s.mu == Free {
      run, t := [], s;
      LeadsNone(s);
      NotHolding(s);
    } else {
      hide Inv;
      HolderStep(s);
      var step := HolderNext(s);
      var next := Apply(s, step, false);
      StepKeepsInv(s, step);
      LeadsOne(s, step);
      hide Apply, Enabled, Leads, LockRank, HolderNext;
      var rest;
      if next.mu == Free {
        rest, t := [], next;
        LeadsNone(next);
        NotHolding(next);
      } else {
        rest, t := FreeLock(next);
        GoOnTrans(s.deliveries, next.deliveries, t.deliveries);
      }
      run := [step] + rest;
      LeadsJoin(s, [step], next, rest, t);
      hide GoOn;
    }
  }

  lemma NotHolding(s: State)
    requires Inv(s) && s.mu == Free
    ensures s.starter != Holding && s.starter != Unlocking
    ensures forall id :: id in s.deliveries ==> !InsideLock(s.deliveries[id].pc)
  {
    hide StartInOrder, CloseOnce, StoredCounted, EoseInOrder, EarlyAdded, Decided;
  }

  // ----- the signal comes -----

  /** Everything dispatched before the message has been counted down, so the signal can be posted. */
  lemma PostNow(s: State) returns (run: seq<Step>, t: State)
    requires s.waiter == AwaitStored && s.storedCount == 0 && s.eosePosts == 0
    ensures Leads(s, run, t, false) && t.eosePosts == 1
  {
    var mid := Apply(s, StoredDone, false);
    t := Apply(mid, PostEose, false);
    LeadsOne(s, StoredDone);
    LeadsOne(mid, PostEose);
    run := [StoredDone] + [PostEose];
    LeadsJoin(s, [StoredDone], mid, [PostEose], t);
  }

  /** Of the counted deliveries one takes the lock. */
  lemma TakeLock(s: State, id: nat) returns (t: State)
    requires Inv(s) && s.mu == Free && id in s.deliveries && s.deliveries[id].pc == Waiting
    ensures Enabled(s, DeliveryDoes(id, Lock), false) && t == Apply(s, DeliveryDoes(id, Lock), false)
    ensures Inv(t) && t.mu == ByDelivery(id) && t == s.(deliveries := t.deliveries, mu := ByDelivery(id))
    ensures Counted(t.deliveries) == Counted(s.deliveries)
  {
    StepKeepsInv(s, DeliveryDoes(id, Lock));
    t := Apply(s, DeliveryDoes(id, Lock), false);
    hide Inv;
    assert Counted(t.deliveries) == Counted(s.deliveries);
  }

  lemma CountedShrinks(s: map<nat, Delivery>, t: map<nat, Delivery>)
    requires GoOn(s, t)
    ensures Counted(t) <= Counted(s)
  {
  }

  /** With the lock free the counted deliveries take their turns until none is left. */
  lemma Drain(s: State) returns (run: seq<Step>, t: State)
    requires Inv(s) && s.mu == Free && s.waiter == AwaitStored
    ensures Leads(s, run, t, false) && t.eosePosts == 1
    decreases |Counted(s.deliveries)|
  {
    AwaitIs(s);
    if s.storedCount == 0 {
      run, t := PostNow(s);
    } else {
      var id :| id in Counted(s.deliveries);
      NotHolding(s);
      var locked := TakeLock(s, id);
      LeadsOne(s, DeliveryDoes(id, Lock));
      hide Inv, Apply, Enabled, Leads;
      var turn, next := FreeLock(locked);
      CountedShrinks(locked.deliveries, next.deliveries);
      assert id !in Counted(next.deliveries);
      Smaller(Counted(next.deliveries), Counted(s.deliveries), id);
      hide GoOn, Counted;
      var rest;
      rest, t := Drain(next);
      LeadsJoin(s, [DeliveryDoes(id, Lock)], locked, turn, next);
      run := [DeliveryDoes(id, Lock)] + turn + rest;
      LeadsJoin(s, [DeliveryDoes(id, Lock)] + turn, next, rest, t);
    }
  }

  lemma Smaller(a: set<nat>, b: set<nat>, id: nat)
    requires a <= b && id in b && id !in a
    ensures |a| < |b|
  {
    Fewer(a, b - {id});
  }

  lemma {:induction false} Fewer(a: set<nat>, b: set<nat>)
    requires a <= b
    ensures |a| <= |b|
  {
    if a != {} {
      var x :| x in a;
      Fewer(a - {x}, b - {x});
    }
  }

  lemma AwaitIs(s: State)
    requires Inv(s) && s.waiter == AwaitStored
    ensures s.eosePosts == 0 && s.storedCount == |Counted(s.deliveries)|
  {
    hide StartInOrder, LockHeld, CloseOnce, EarlyAdded, Decided;
  }

  /** Some continuation posts the signal. */
  ghost predicate CanPost(s: State) {
    exists run, t :: Leads(s, run, t, false) && t.eosePosts == 1
  }

  lemma PostsBefore(s: State, step: Step)
    requires Enabled(s, step, false) && CanPost(Apply(s, step, false))
    ensures CanPost(s)
  {
    hide Enabled, Apply;
    var rest, t :| Leads(Apply(s, step, false), rest, t, false) && t.eosePosts == 1;
    LeadsOne(s, step);
    LeadsJoin(s, [step], Apply(s, step, false), rest, t);
  }

  /** Once the message has been read the signal can be posted. */
  lemma WaiterPosts(s: State)
    requires Inv(s) && s.waiter == AwaitStored
    ensures CanPost(s)
  {
    var first, mid := FreeLock(s);
    var rest, t := Drain(mid);
    LeadsJoin(s, first, mid, rest, t);
  }

  /** A fresh number for a new goroutine. */
  lemma Fresh<T>(m: map<nat, T>) returns (id: nat)
    ensures id !in m && id != START
  {
    id := Largest(m.Keys) + 1;
  }

  /** The reader puts away what it has, finds the subscription and reads the message. */
  lemma MessageRead(s: State)
    requires Inv(s) && !s.eosed && (s.registered || s.reader == Found)
    ensures CanPost(s)
    decreases match s.reader case Idle => 1 case Found => 0 case Loaded(_) => 3 case Ready(_) => 2
  {
    hide CanPost, StartInOrder, LockHeld, CloseOnce, StoredCounted, EoseInOrder, EarlyAdded, Decided;
    var id := Fresh(s.deliveries);
    var step := match s.reader
      case Idle => ReaderDoes(Find)
      case Found => ReaderDoes(ReadEose)
      case Loaded(_) => ReaderDoes(AddStored)
      case Ready(_) => Spawn(id);
    StepKeepsInv(s, step);
    hide Inv;
    if s.reader == Found {
      WaiterPosts(Apply(s, step, false));
    } else {
      MessageRead(Apply(s, step, false));
    }
    PostsBefore(s, step);
  }

  /** From every reachable state in which the end-of-stored-events message has not been read but can
      be, because the subscription is registered or has just been found, the signal can be posted;
      and from every one in which it has been read and the signal has not been posted. */
  lemma EoseAnswered(s: State, steps: seq<Step>, t: State)
    requires Init(s) && Leads(s, steps, t, false)
    requires t.eosePosts == 0 && (t.eosed || t.registered || t.reader == Found)
    ensures exists run, u :: Leads(t, run, u, false) && u.eosePosts == 1
  {
    InitInv(s);
    RunKeepsInv(s, steps, t);
    hide CanPost, StartInOrder, LockHeld, CloseOnce, StoredCounted, EarlyAdded, Decided;
    if !t.eosed {
      MessageRead(t);
    } else if t.waiter == Posting {
      var u := Apply(t, PostEose, false);
      LeadsOne(t, PostEose);
      assert u.eosePosts == 1;
      PostedBy(t, [PostEose], u);
    } else {
      WaiterPosts(t);
    }
    hide Inv;
    assert CanPost(t);
    CanPostIs(t);
  }

  lemma PostedBy(s: State, run: seq<Step>, t: State)
    requires Leads(s, run, t, false) && t.eosePosts == 1
    ensures CanPost(s)
  {
  }

  lemma CanPostIs(s: State)
    requires CanPost(s)
    ensures exists run, t :: Leads(s, run, t, false) && t.eosePosts == 1
  {
  }

  /** The barrier holds the signal back no longer than it must: as soon as every event dispatched
      before the message has passed the countdown, the waiter's own steps are enabled. */
  lemma BarrierLifts(s: State, steps: seq<Step>, t: State)
    requires Init(s) && Leads(s, steps, t, false) && t.eosed && t.eosePosts == 0
    requires forall id :: id in t.deliveries && t.deliveries[id].before ==>
      t.deliveries[id].pc == Releasing || t.deliveries[id].pc == Finished
    ensures Enabled(t, PostEose, false)
      || (Enabled(t, StoredDone, false) && Enabled(Apply(t, StoredDone, false), PostEose, false))
  {
    InitInv(s);
    RunKeepsInv(s, steps, t);
    NoneCounted(t.deliveries);
    hide StartInOrder, LockHeld, CloseOnce, Decided, Counted, EarlyAdded;
  }

  lemma NoneCounted(deliveries: map<nat, Delivery>)
    requires EarlyAdded(deliveries)
    requires forall id :: id in deliveries && deliveries[id].before ==>
      deliveries[id].pc == Releasing || deliveries[id].pc == Finished
    ensures Counted(deliveries) == {}
  {
  }

  // ----- events come -----

  /** A delivery that waits while the subscription is live gets the lock and sends. */
  lemma WaiterSends(s: State, id: nat) returns (run: seq<Step>, t: State)
    requires Inv(s) && s.live && id in s.deliveries && s.deliveries[id].pc == Waiting
    ensures Leads(s, run, t, false) && id in t.deliveries && t.deliveries[id].outcome == Delivered
  {
    hide Inv;
    var first, m := FreeLock(s);
    assert m.live && m.deliveries[id].pc == Waiting;
    var m1 := TakeLock(m, id);
    var m2 := Apply(m1, DeliveryDoes(id, CheckLive), false);
    t := Apply(m2, DeliveryDoes(id, Send), false);
    assert m1.live && m1.deliveries[id].pc == Locked && m2.deliveries[id].pc == Sending;
    hide GoOn;
    LeadsOne(m, DeliveryDoes(id, Lock));
    LeadsOne(m1, DeliveryDoes(id, CheckLive));
    LeadsOne(m2, DeliveryDoes(id, Send));
    hide Apply, Enabled, Leads;
    LeadsJoin(m1, [DeliveryDoes(id, CheckLive)], m2, [DeliveryDoes(id, Send)], t);
    var rest := [DeliveryDoes(id, CheckLive)] + [DeliveryDoes(id, Send)];
    LeadsJoin(m, [DeliveryDoes(id, Lock)], m1, rest, t);
    LeadsJoin(s, first, m, [DeliveryDoes(id, Lock)] + rest, t);
    run := first + ([DeliveryDoes(id, Lock)] + rest);
  }

  /** Some continuation delivers an event that is none of these. */
  ghost predicate CanDeliver(s: State, known: set<nat>) {
    exists run, t, id :: Leads(s, run, t, false) && id !in known && HasDelivered(t, id)
  }

  predicate HasDelivered(t: State, id: nat) {
    id in t.deliveries && t.deliveries[id].outcome == Delivered
  }

  lemma DeliversBefore(s: State, step: Step, known: set<nat>)
    requires Enabled(s, step, false) && CanDeliver(Apply(s, step, false), known)
    ensures CanDeliver(s, known)
  {
    hide Enabled, Apply;
    var rest, t, id :| Leads(Apply(s, step, false), rest, t, false) && id !in known && HasDelivered(t, id);
    LeadsOne(s, step);
    LeadsJoin(s, [step], Apply(s, step, false), rest, t);
  }

  /** The reader's way to the next delivery. */
  function ReaderNext(s: State, id: nat): Step {
    match s.reader
    case Idle => ReaderDoes(Find)
    case Found => ReaderDoes(LoadEosed)
    case Loaded(_) => ReaderDoes(AddStored)
    case Ready(_) => Spawn(id)
  }

  lemma ReaderGoesOn(s: State, r: ReaderStep)
    requires ReaderEnabled(s, r) && (r == Find || r == LoadEosed || r == AddStored)
    ensures var t := ReaderApply(s, r);
      && t == s.(reader := t.reader, storedCount := t.storedCount)
      && t.reader != Idle && ReaderRank(t.reader) < ReaderRank(s.reader)
  {
    if r == AddStored {
      if s.reader.eosed {
      } else {
      }
    }
  }

  lemma ReaderMoves(s: State, id: nat)
    requires s.live && (s.registered || s.reader != Idle) && !s.reader.Ready?
    ensures Enabled(s, ReaderNext(s, id), false)
    ensures var t := Apply(s, ReaderNext(s, id), false);
      t.live && t.reader != Idle && t.deliveries == s.deliveries && ReaderRank(t.reader) < ReaderRank(s.reader)
  {
    ReaderGoesOn(s, ReaderNext(s, id).r);
    hide ReaderApply, ReaderRank;
  }

  lemma ReaderSpawns(s: State, id: nat)
    requires s.live && s.reader.Ready? && id !in s.deliveries
    ensures Enabled(s, ReaderNext(s, id), false)
    ensures var t := Apply(s, ReaderNext(s, id), false);
      t.live && id in t.deliveries && t.deliveries[id].pc == Waiting
  {
  }

  function ReaderRank(r: ReaderPc): nat {
    match r case Idle => 3 case Found => 2 case Loaded(_) => 1 case Ready(_) => 0
  }

  lemma MessageDelivered(s: State)
    requires Inv(s) && s.live && (s.registered || s.reader != Idle)
    ensures CanDeliver(s, s.deliveries.Keys)
    decreases ReaderRank(s.reader)
  {
    hide CanDeliver, Inv;
    var id := Fresh(s.deliveries);
    var step := ReaderNext(s, id);
    if s.reader.Ready? {
      ReaderSpawns(s, id);
    } else {
      ReaderMoves(s, id);
    }
    hide Apply, Enabled, ReaderNext;
    StepKeepsInv(s, step);
    var next := Apply(s, step, false);
    if s.reader.Ready? {
      var run, t := WaiterSends(next, id);
      DeliveredBy(next, run, t, id, s.deliveries.Keys);
    } else {
      MessageDelivered(next);
    }
    DeliversBefore(s, step, s.deliveries.Keys);
  }

  lemma DeliveredBy(s: State, run: seq<Step>, t: State, id: nat, known: set<nat>)
    requires Leads(s, run, t, false) && id !in known && HasDelivered(t, id)
    ensures CanDeliver(s, known)
  {
  }

  /** From every reachable live state in which the subscription is registered, or the reader is at an
      event of it, a further event can be delivered. */
  lemma EventDelivered(s: State, steps: seq<Step>, t: State)
    requires Init(s) && Leads(s, steps, t, false) && t.live && (t.registered || t.reader != Idle)
    ensures exists run, u, id :: Leads(t, run, u, false) && id !in t.deliveries.Keys && HasDelivered(u, id)
  {
    InitInv(s);
    RunKeepsInv(s, steps, t);
    hide Inv;
    MessageDelivered(t);
  }

  /** An undecided delivery that a step drops is dropped because nothing is live or the context has
      ended; early means that Fire has not come yet. */
  lemma DroppedWhy(s: State, step: Step, id: nat)
    requires Enabled(s, step, false) && id in s.deliveries && s.deliveries[id].outcome == Undecided
    ensures var t := Apply(s, step, false);
      && id in t.deliveries
      && (t.deliveries[id].outcome == DroppedEarly ==> !s.live && !s.cancelled && s.fire == NotFired)
      && (t.deliveries[id].outcome == DroppedEnded ==> s.cancelled || (!s.live && s.fire != NotFired))
  {
    match step {
      case DeliveryDoes(k, d) => DeliveryDrops(s, k, d, id);
      case FireDoes(f) => FireDrops(s, f);
      case ReaderDoes(r) => ReaderDrops(s, r);
      case StartDoes(p) => StartUnrelated(s, p);
      case _ =>
    }
    hide FireApply, ReaderApply, DeliveryApply, FireEnabled, ReaderEnabled, DeliveryEnabled, Unrelated;
  }

  lemma DeliveryDrops(s: State, k: nat, d: DeliveryStep, id: nat)
    requires DeliveryEnabled(s, k, d) && id in s.deliveries && s.deliveries[id].outcome == Undecided
    ensures var t := DeliveryApply(s, k, d);
      && id in t.deliveries
      && (t.deliveries[id].outcome == DroppedEarly ==> !s.live && !s.cancelled && s.fire == NotFired)
      && (t.deliveries[id].outcome == DroppedEnded ==> s.cancelled || (!s.live && s.fire != NotFired))
  {
  }

  lemma FireDrops(s: State, f: FireStep)
    requires FireEnabled(s, f, false)
    ensures FireApply(s, f).deliveries == s.deliveries
  {
  }

  lemma ReaderDrops(s: State, r: ReaderStep)
    requires ReaderEnabled(s, r)
    ensures ReaderApply(s, r).deliveries == s.deliveries
  {
    match r {
      case AddStored =>
        if s.reader.eosed {
        } else {
        }
      case ReadEose =>
        if s.eosed {
        } else {
        }
      case _ =>
    }
  }

  // ----- the channel is closed -----

  /** Behind the end of the context the start goroutine goes through its unsub and closes the channel,
      without a single event being received: a delivery that has the lock gives up. */
  lemma Ends(s: State) returns (run: seq<Step>, t: State)
    requires Inv(s) && s.cancelled
    ensures Leads(s, run, t, false) && Quiet(run) && t.eventsClosed && t.starter == Stopped
    decreases match s.starter case AwaitDone => 6 case InUnsub => 5 case AtLock => 4 case Holding => 3
          case Unlocking => 3 case Stopped => 0,
      if START in s.callers then UnsubRank(s.callers[START]) else 0
  {
    StartIs(s);
    if s.starter == Stopped {
      run, t := [], s;
      LeadsNone(s);
    } else if s.starter == Holding || s.starter == Unlocking {
      run, t := FreeLock(s);
      StartIs(t);
      hide *;
    } else {
      hide Inv, Quiet;
      var first, m := [], s;
      LeadsNone(s);
      NoSteps();
      if s.starter == AtLock {
        first, m := FreeLock(s);
      }
      var step := match m.starter
        case AwaitDone => StartDoes(Wake)
        case InUnsub => if m.callers[START] == Ended then StartDoes(Unsubbed) else CallerMoves(START)
        case _ => StartDoes(LockMu);
      StepKeepsInv(m, step);
      LeadsOne(m, step);
      var next := Apply(m, step, false);
      var rest;
      rest, t := Ends(next);
      hide Apply, Enabled, Leads, GoOn;
      LeadsJoin(s, first, m, [step], next);
      LeadsJoin(s, first + [step], next, rest, t);
      run := first + [step] + rest;
      QuietJoin(first, step, rest);
    }
  }

  lemma NoSteps()
    ensures Quiet([])
  {
  }

  lemma QuietJoin(first: seq<Step>, step: Step, rest: seq<Step>)
    requires Quiet(first) && !step.DeliveryDoes? && Quiet(rest)
    ensures Quiet(first + [step] + rest)
  {
  }

  function UnsubRank(pc: CallerPc): nat {
    match pc
    case AtReason => 6
    case AtStore => 5
    case AtCancel => 4
    case AtSwap => 3
    case AtClose => 2
    case AtDelete => 1
    case Ended => 0
  }

  lemma StartIs(s: State)
    requires Inv(s)
    ensures START in s.callers && (s.starter == AwaitDone ==> s.callers[START] == AtCancel)
    ensures s.starter == AtLock ==> s.callers[START] == Ended
    ensures s.eventsClosed <==> s.starter == Unlocking || s.starter == Stopped
  {
    hide LockHeld, CloseOnce, StoredCounted, EoseInOrder, EarlyAdded, Decided;
  }

  /** From every reachable state behind the end of the context the channel can be closed with nobody
      receiving; and a Fire that fails to write ends the context. */
  lemma ChannelCloses(s: State, steps: seq<Step>, t: State)
    requires Init(s) && Leads(s, steps, t, false)
    ensures t.cancelled ==> exists run, u :: Leads(t, run, u, false) && Quiet(run) && u.eventsClosed
    ensures t.fire == Writing ==>
      Enabled(t, FireDoes(WriteFailed), false) && Apply(t, FireDoes(WriteFailed), false).cancelled
  {
    InitInv(s);
    RunKeepsInv(s, steps, t);
    if t.cancelled {
      var run, u := Ends(t);
    }
    hide Inv;
  }

  // ----- CLOSE is written -----

  /** What has been written of CLOSE, and who may still write it. */
  ghost function Closing(s: State): nat {
    s.closesWritten + |Claims(s.callers)| + (if s.live then 1 else 0)
  }

  predicate NoHandler(s: State) {
    forall id :: id in s.callers ==> s.callers[id] != AtReason && s.callers[id] != AtStore
  }

  /** A caller's step moves the right to write along; only a CLOSED handler lets it go. */
  lemma CallerClosing(s: State, id: nat)
    requires id in s.callers
    ensures var t := CallerApply(s, id);
      && Closing(t) == Closing(s) - (if s.callers[id] == AtStore && s.live then 1 else 0)
      && t.closesWritten >= s.closesWritten
  {
    var pc := s.callers[id];
    ClaimsAfter(s.callers, id, NextPc(pc, s.live));
    hide Claims;
  }

  predicate NewCaller(step: Step) { step.ReadClosed? || step.CallUnsub? }

  /** Nothing that has to do with the right to write CLOSE has moved. */
  predicate Unrelated(s: State, t: State) {
    && t.callers == s.callers && t.closesWritten == s.closesWritten && t.live == s.live
    && (t.fire == NotFired <==> s.fire == NotFired) && t.registered == s.registered && (s.cancelled ==> t.cancelled)
  }

  lemma DeliveryUnrelated(s: State, id: nat, d: DeliveryStep)
    requires DeliveryEnabled(s, id, d)
    ensures Unrelated(s, DeliveryApply(s, id, d))
  {
    hide DeliveryAfter;
  }

  lemma ReaderUnrelated(s: State, r: ReaderStep)
    requires ReaderEnabled(s, r)
    ensures Unrelated(s, ReaderApply(s, r))
  {
    match r {
      case Find =>
      case Skip =>
      case LoadEosed =>
      case AddStored =>
        if s.reader.eosed {
        } else {
        }
      case ReadEose =>
        if s.eosed {
        } else {
        }
    }
  }

  lemma FireUnrelated(s: State, f: FireStep)
    requires FireEnabled(s, f, false) && f != StoreLive
    ensures Unrelated(s, FireApply(s, f))
  {
  }

  lemma OtherStep(s: State, step: Step)
    requires Enabled(s, step, false) && !step.CallerMoves? && !NewCaller(step) && step != FireDoes(StoreLive)
    ensures Unrelated(s, Apply(s, step, false))
  {
    match step {
      case FireDoes(f) => FireUnrelated(s, f);
      case ReaderDoes(r) => ReaderUnrelated(s, r);
      case DeliveryDoes(id, d) => DeliveryUnrelated(s, id, d);
      case StartDoes(p) => StartUnrelated(s, p);
      case _ => WaiterUnrelated(s, step);
    }
    hide FireApply, ReaderApply, DeliveryApply, StartApply, FireEnabled, ReaderEnabled, DeliveryEnabled, StartEnabled,
         Unrelated;
  }

  lemma StartUnrelated(s: State, p: StartStep)
    requires StartEnabled(s, p)
    ensures Unrelated(s, StartApply(s, p))
  {
  }

  lemma WaiterUnrelated(s: State, step: Step)
    requires Enabled(s, step, false) && (step.Spawn? || step == StoredDone || step == PostEose)
    ensures Unrelated(s, Apply(s, step, false))
  {
  }

  /** The total is conserved from Fire on, except that a CLOSED handler may let the right go. */
  ghost predicate Conserved(s: State, step: Step, t: State) {
    && t.closesWritten >= s.closesWritten && (t.fire == NotFired <==> s.fire == NotFired && step != FireDoes(StoreLive))
    && Closing(t) <= Closing(s) + (if step == FireDoes(StoreLive) then 1 else 0)
    && (NoHandler(s) && !step.ReadClosed? ==>
      NoHandler(t) && Closing(t) == Closing(s) + (if step == FireDoes(StoreLive) then 1 else 0))
    && (step == FireDoes(StoreLive) ==> s.fire == NotFired)
  }

  lemma StepClosing(s: State, step: Step)
    requires Inv(s) && Enabled(s, step, false)
    ensures Conserved(s, step, Apply(s, step, false))
  {
    if step.CallerMoves? {
      CallerConserved(s, step.id);
    } else if NewCaller(step) {
      NewConserved(s, step);
    } else if step == FireDoes(StoreLive) {
      NotLiveYet(s);
      FireConserved(s);
    } else {
      OtherStep(s, step);
      assert Conserved(s, step, Apply(s, step, false)) by {
        hide Apply, Enabled, Inv, Claims;
      }
    }
    hide *;
  }

  lemma CallerConserved(s: State, id: nat)
    requires Enabled(s, CallerMoves(id), false)
    ensures Conserved(s, CallerMoves(id), Apply(s, CallerMoves(id), false))
  {
    CallerClosing(s, id);
    hide Closing;
  }

  lemma NewConserved(s: State, step: Step)
    requires NewCaller(step) && Enabled(s, step, false)
    ensures Conserved(s, step, Apply(s, step, false))
  {
    var pc := NewCallerIs(s, step);
    var t := Apply(s, step, false);
    ClaimsAfter(s.callers, step.id, pc);
    NotAClaim(s.callers, step.id);
    hide Claims, Apply, Enabled;
    assert Closing(t) == Closing(s);
    hide Closing;
  }

  lemma NewCallerIs(s: State, step: Step) returns (pc: CallerPc)
    requires NewCaller(step) && Enabled(s, step, false)
    ensures pc == (if step.ReadClosed? then AtReason else AtCancel) && step.id !in s.callers
    ensures var t := Apply(s, step, false); t == s.(reader := t.reader, callers := s.callers[step.id := pc])
  {
    pc := if step.ReadClosed? then AtReason else AtCancel;
  }

  lemma FireConserved(s: State)
    requires Enabled(s, FireDoes(StoreLive), false) && !s.live
    ensures Conserved(s, FireDoes(StoreLive), Apply(s, FireDoes(StoreLive), false))
  {
    hide Claims;
  }

  lemma NotLiveYet(s: State)
    requires Inv(s) && s.fire == NotFired
    ensures !s.live
  {
    hide StartInOrder, LockHeld, StoredCounted, EoseInOrder, EarlyAdded, Decided, Claims;
  }

  lemma NotAClaim(callers: map<nat, CallerPc>, id: nat)
    requires id !in callers
    ensures Claims(callers) - {id} == Claims(callers)
  {
  }

  predicate NoneClosed(steps: seq<Step>) {
    forall i :: 0 <= i < |steps| ==> !steps[i].ReadClosed?
  }

  /** As long as the relay sends no CLOSED, from Fire on exactly one of these holds: the subscription
      is live, one caller is about to write CLOSE, or CLOSE has been written. */
  lemma CloseNotLost(s: State, steps: seq<Step>, t: State)
    requires Init(s) && Leads(s, steps, t, false) && NoneClosed(steps)
    ensures t.closesWritten + |Claims(t.callers)| + (if t.live then 1 else 0) == (if t.fire == NotFired then 0 else 1)
  {
    InitInv(s);
    assert Claims(s.callers) == {};
    hide Inv;
    CloseKept(s, steps, t);
  }

  lemma {:induction false} CloseKept(s: State, steps: seq<Step>, t: State)
    requires Inv(s) && NoHandler(s) && Leads(s, steps, t, false) && NoneClosed(steps)
    requires Closing(s) == if s.fire == NotFired then 0 else 1
    ensures Closing(t) == if t.fire == NotFired then 0 else 1
    decreases |steps|
  {
    if steps != [] {
      hide Inv, Apply, Enabled, NoHandler, Closing;
      assert NoneClosed(steps[1..]) && !steps[0].ReadClosed?;
      StepKeepsInv(s, steps[0]);
      StepClosing(s, steps[0]);
      CloseKept(Apply(s, steps[0], false), steps[1..], t);
    }
  }

  /** When nothing is live and no caller is about to write CLOSE, none is written any more: a CLOSED
      handler that takes live down keeps the CLOSE from being sent. */
  lemma NoFurtherClose(s: State, steps: seq<Step>, t: State, more: seq<Step>, u: State)
    requires Init(s) && Leads(s, steps, t, false) && Leads(t, more, u, false)
    requires t.fire != NotFired && !t.live && (forall id :: id in t.callers ==> t.callers[id] != AtClose)
    ensures u.closesWritten == t.closesWritten
  {
    InitInv(s);
    RunKeepsInv(s, steps, t);
    assert Claims(t.callers) == {};
    hide Inv;
    CloseShrinks(t, more, u);
  }

  lemma {:induction false} CloseShrinks(s: State, steps: seq<Step>, t: State)
    requires Inv(s) && s.fire != NotFired && Leads(s, steps, t, false)
    ensures s.closesWritten <= t.closesWritten <= Closing(t) <= Closing(s)
    decreases |steps|
  {
    if steps != [] {
      hide Inv, Apply, Enabled, NoHandler, Claims;
      StepKeepsInv(s, steps[0]);
      StepClosing(s, steps[0]);
      CloseShrinks(Apply(s, steps[0], false), steps[1..], t);
    }
  }

  // ----- unsub by whoever calls it -----

  /** A caller that is not the start goroutine goes on to its end, all else standing still. */
  lemma CallerFinishes(s: State, id: nat) returns (run: seq<Step>, t: State)
    requires id in s.callers && id != START
    ensures Leads(s, run, t, false) && id in t.callers && t.callers[id] == Ended
    ensures s.callers[id] != Ended ==> !t.registered
    ensures t.registered ==> s.registered
    ensures UnsubRank(s.callers[id]) >= 3 ==> !t.live
    ensures UnsubRank(s.callers[id]) >= 4 ==> t.cancelled
    ensures s.cancelled ==> t.cancelled
    ensures s.live ==> t.live || UnsubRank(s.callers[id]) >= 3
    ensures !s.live ==> !t.live
    ensures t.closesWritten == s.closesWritten + (match s.callers[id]
      case AtCancel => (if s.live then 1 else 0)
      case AtSwap => (if s.live then 1 else 0)
      case AtClose => 1
      case _ => 0)
    decreases UnsubRank(s.callers[id])
  {
    if s.callers[id] == Ended {
      run, t := [], s;
      LeadsNone(s);
    } else {
      var next := CallerStep(s, id);
      LeadsOne(s, CallerMoves(id));
      hide Leads, Apply, Enabled;
      var rest;
      rest, t := CallerFinishes(next, id);
      LeadsJoin(s, [CallerMoves(id)], next, rest, t);
      run := [CallerMoves(id)] + rest;
    }
  }

  lemma CallerStep(s: State, id: nat) returns (next: State)
    requires id in s.callers && id != START && s.callers[id] != Ended
    ensures Enabled(s, CallerMoves(id), false) && next == Apply(s, CallerMoves(id), false)
    ensures id in next.callers && next.callers[id] == NextPc(s.callers[id], s.live)
    ensures next.live == (s.live && s.callers[id] != AtStore && s.callers[id] != AtSwap)
    ensures next.cancelled == (s.cancelled || s.callers[id] == AtCancel)
    ensures next.closesWritten == s.closesWritten + (if s.callers[id] == AtClose then 1 else 0)
    ensures next.registered == (s.registered && s.callers[id] != AtDelete)
  {
    next := Apply(s, CallerMoves(id), false);
  }

  predicate Gone(t: State, closes: nat) {
    t.cancelled && !t.registered && !t.live && t.closesWritten == closes
  }

  /** At any time a call of unsub can come to its end. It ends the context, removes the subscription
      and takes live down, and writes CLOSE exactly when the subscription was live. */
  lemma UnsubEnds(s: State)
    ensures exists run, t :: Leads(s, run, t, false) && Gone(t, s.closesWritten + (if s.live then 1 else 0))
  {
    var id := Fresh(s.callers);
    var called := Apply(s, CallUnsub(id), false);
    LeadsOne(s, CallUnsub(id));
    var rest, t := CallerFinishes(called, id);
    hide Leads;
    LeadsJoin(s, [CallUnsub(id)], called, rest, t);
  }

  /** The handler of a CLOSED message does the same without writing CLOSE. */
  lemma ClosedEnds(s: State)
    requires s.reader == Found
    ensures exists run, t :: Leads(s, run, t, false) && Gone(t, s.closesWritten)
  {
    var id := Fresh(s.callers);
    var called := Apply(s, ReadClosed(id), false);
    LeadsOne(s, ReadClosed(id));
    var rest, t := CallerFinishes(called, id);
    hide Leads;
    LeadsJoin(s, [ReadClosed(id)], called, rest, t);
  }

  /** From every reachable live state CLOSE can still be written, and with it exactly one. */
  lemma CloseWritten(s: State, steps: seq<Step>, t: State)
    requires Init(s) && Leads(s, steps, t, false) && t.live
    ensures t.closesWritten == 0 && exists run, u :: Leads(t, run, u, false) && u.closesWritten == 1
  {
    InitInv(s);
    RunKeepsInv(s, steps, t);
    UnsubEnds(t);
    hide StartInOrder, LockHeld, StoredCounted, EoseInOrder, EarlyAdded, Decided, Claims, Leads;
  }

  // ----- what a finished unsub leaves behind -----

  predicate Unsubscribed(s: State) {
    && (s.registered <==> forall id :: id in s.callers ==> s.callers[id] != Ended)
    && (forall id :: id in s.callers && UnsubRank(s.callers[id]) < 4 ==> s.cancelled)
  }

  lemma UnsubscribedStep(s: State, step: Step)
    requires Unsubscribed(s) && Enabled(s, step, false)
    ensures Unsubscribed(Apply(s, step, false))
  {
    if step.CallerMoves? {
      CallerUnsubscribed(s, step.id);
    } else if NewCaller(step) {
      var t := Apply(s, step, false);
      assert t == s.(reader := t.reader, callers := t.callers);
      assert forall id :: id in t.callers && id != step.id ==> id in s.callers && t.callers[id] == s.callers[id];
      assert forall id :: id in s.callers ==> id in t.callers && t.callers[id] == s.callers[id];
      hide Apply, Enabled;
    } else if step != FireDoes(StoreLive) {
      OtherStep(s, step);
      hide Apply, Enabled;
    }
  }

  lemma CallerUnsubscribed(s: State, id: nat)
    requires Unsubscribed(s) && id in s.callers && s.callers[id] != Ended
    ensures Unsubscribed(CallerApply(s, id))
  {
    var t := CallerApply(s, id);
    assert forall k :: k in s.callers ==> k in t.callers && (k != id ==> t.callers[k] == s.callers[k]);
    assert t.callers[id] == Ended <==> s.callers[id] == AtDelete;
  }

  lemma {:induction false} UnsubscribedRun(s: State, steps: seq<Step>, t: State)
    requires Unsubscribed(s) && Leads(s, steps, t, false)
    ensures Unsubscribed(t)
    decreases |steps|
  {
    if steps != [] {
      hide Apply, Enabled, Unsubscribed;
      UnsubscribedStep(s, steps[0]);
      UnsubscribedRun(Apply(s, steps[0], false), steps[1..], t);
    }
  }

  /** The subscription is in the relay's map until some caller of unsub has finished, and no longer;
      a caller that has gone past its first step has ended the context. */
  lemma RemovedOnce(s: State, steps: seq<Step>, t: State)
    requires Init(s) && Leads(s, steps, t, false)
    ensures t.registered <==> forall id :: id in t.callers ==> t.callers[id] != Ended
    ensures forall id :: id in t.callers && UnsubRank(t.callers[id]) < UnsubRank(AtCancel) ==> t.cancelled
  {
    UnsubscribedRun(s, steps, t);
  }

  /** Nothing is found and nothing is on its way to a delivery. */
  predicate Silent(s: State) {
    !s.registered && s.reader == Idle
  }

  lemma SilentStep(s: State, step: Step)
    requires Silent(s) && Enabled(s, step, false)
    ensures Silent(Apply(s, step, false)) && Apply(s, step, false).deliveries.Keys == s.deliveries.Keys
  {
    match step {
      case DeliveryDoes(k, d) => DeliveryKeys(s, k, d);
      case FireDoes(f) => FireDrops(s, f);
      case StartDoes(p) => StartUnrelated(s, p);
      case ReaderDoes(r) => assert false;
      case Spawn(id) => assert false;
      case ReadClosed(id) => assert false;
      case _ =>
    }
    hide DeliveryApply, DeliveryEnabled, Unrelated;
  }

  lemma DeliveryKeys(s: State, k: nat, d: DeliveryStep)
    requires DeliveryEnabled(s, k, d)
    ensures var t := DeliveryApply(s, k, d);
      t.deliveries.Keys == s.deliveries.Keys && t.registered == s.registered && t.reader == s.reader
  {
    hide DeliveryAfter;
  }

  /** Once the subscription has been removed and the reader is done with what it had at hand, no further
      event is dispatched and no further CLOSED handled. */
  lemma {:induction false} SilentAfterRemoval(s: State, steps: seq<Step>, t: State)
    requires Silent(s) && Leads(s, steps, t, false)
    ensures Silent(t) && t.deliveries.Keys == s.deliveries.Keys
    decreases |steps|
  {
    if steps != [] {
      hide Apply, Enabled, Silent;
      SilentStep(s, steps[0]);
      SilentAfterRemoval(Apply(s, steps[0], false), steps[1..], t);
    }
  }
}
