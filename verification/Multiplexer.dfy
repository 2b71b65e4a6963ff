/** The callers and the reader of pkg/cdp/cdp.go:101-199, taking the steps
    between their critical sections in any order. */
module Multiplexer {
  import opened Wrappers
  import opened Connection

  /** Why a caller gives up waiting. */
  datatype Reason = MarshalFailed | WriteFailed | Cancelled | ConnectionDone

  datatype Outcome = Answered(message: Message) | Failed(error: Error) | GaveUp(reason: Reason)

  /** Where a call is. */
  datatype Call =
    | Started
    | Numbered(id: int)
    | Registered(id: int)
    | Waiting(id: int)
    | Leaving(id: int, reason: Reason)
    | Asking(id: int)
    | Returned(id: int, outcome: Outcome)

  /** A call's response channel, which has room for one message, and how many were ever sent on it. */
  datatype Channel = Channel(buffer: seq<Message>, sent: nat)

  datatype Reader =
    | Reading
    | Holding(message: Message)
    | Delivering(message: Message, call: nat)
    | Failing(error: Error)
    | Stopped

  datatype State = State(shared: Shared, calls: map<nat, Call>, channels: map<nat, Channel>, reader: Reader)

  const CAPACITY: nat := 1

  datatype Action =
    | Start(call: nat)
    | Number(call: nat)
    | Register(call: nat)
    | FailToMarshal(call: nat)
    | FailToWrite(call: nat)
    | Write(call: nat)
    | Receive(call: nat)
    | SeeDone(call: nat)
    | Cancel(call: nat)
    | Forget(call: nat)
    | Ask(call: nat)
    | Arrive(message: Message)
    | Take
    | Deliver
    | Break(error: Error)
    | End
  {
    predicate OfReader() {
      Arrive? || Take? || Deliver? || Break? || End?
    }
  }

  function Initial(): State {
    State(Shared(0, map[], None, 0), map[], map[], Reading)
  }

  // ----- steps -----

  /** Where a call is once it has forgotten its id. */
  function AfterForgetting(id: int, reason: Reason): Call {
    if reason == ConnectionDone then Asking(id) else Returned(id, GaveUp(reason))
  }

  /** Where a call is once it has tried to register. */
  function AfterRegistering(shared: Shared, id: int): Call {
    if shared.err.Some? then Returned(id, Failed(shared.err.value)) else Registered(id)
  }

  /** What the reader does with a message that it holds. */
  function AfterTaking(shared: Shared, message: Message): Reader {
    if message.id in shared.pending then Delivering(message, shared.pending[message.id]) else Reading
  }

  /** A step of a call, if it can take it now. */
  function CallStep(s: State, a: Action): Option<State>
    requires !a.OfReader()
  {
    var c := a.call;
    if a.Start? then
      if c in s.calls then None
      else Some(s.(calls := s.calls[c := Started], channels := s.channels[c := Channel([], 0)]))
    else if c !in s.calls || c !in s.channels then None
    else
      match (a, s.calls[c])
      case (Number(_), Started) =>
        var id := s.shared.nextId + 1;
        Some(s.(shared := s.shared.(nextId := id), calls := s.calls[c := Numbered(id)]))
      case (Register(_), Numbered(id)) =>
        Some(s.(shared := s.shared.Registered(id, c),
                calls := s.calls[c := AfterRegistering(s.shared, id)]))
      case (FailToMarshal(_), Registered(id)) => Some(s.(calls := s.calls[c := Leaving(id, MarshalFailed)]))
      case (FailToWrite(_), Registered(id)) => Some(s.(calls := s.calls[c := Leaving(id, WriteFailed)]))
      case (Write(_), Registered(id)) => Some(s.(calls := s.calls[c := Waiting(id)]))
      case (Receive(_), Waiting(id)) =>
        var channel := s.channels[c];
        if channel.buffer == [] then None
        else Some(s.(calls := s.calls[c := Returned(id, Answered(channel.buffer[0]))],
                     channels := s.channels[c := channel.(buffer := channel.buffer[1..])]))
      case (SeeDone(_), Waiting(id)) =>
        if s.shared.closings == 0 then None else Some(s.(calls := s.calls[c := Leaving(id, ConnectionDone)]))
      case (Cancel(_), Waiting(id)) => Some(s.(calls := s.calls[c := Leaving(id, Cancelled)]))
      case (Forget(_), Leaving(id, reason)) =>
        Some(s.(shared := s.shared.Forgotten(id),
                calls := s.calls[c := AfterForgetting(id, reason)]))
      case (Ask(_), Asking(id)) =>
        if s.shared.err.None? then None
        else Some(s.(calls := s.calls[c := Returned(id, Failed(s.shared.err.value))]))
      case _ => None
  }

  /** A step of the reader, if it can take it now. */
  function ReaderStep(s: State, a: Action): Option<State>
    requires a.OfReader()
  {
    match (a, s.reader)
    case (Arrive(message), Reading) => Some(s.(reader := if message.id == 0 then Reading else Holding(message)))
    case (Take, Holding(message)) =>
      Some(s.(shared := s.shared.Forgotten(message.id), reader := AfterTaking(s.shared, message)))
    case (Deliver, Delivering(message, c)) =>
      if c !in s.channels || |s.channels[c].buffer| >= CAPACITY then None
      else
        var channel := s.channels[c];
        Some(s.(channels := s.channels[c := Channel(channel.buffer + [message], channel.sent + 1)], reader := Reading))
    case (Break(error), Reading) => Some(s.(reader := Failing(error)))
    case (End, Failing(error)) => Some(s.(shared := s.shared.Failed(error), reader := Stopped))
    case _ => None
  }

  function Step(s: State, a: Action): Option<State> {
    if a.OfReader() then ReaderStep(s, a) else CallStep(s, a)
  }

  /** The state after some steps, if they can be taken one after the other. */
  function Run(actions: seq<Action>): Option<State> {
    if actions == [] then Some(Initial())
    else
      var before := Run(actions[..|actions| - 1]);
      if before.None? then None else Step(before.value, actions[|actions| - 1])
  }

  // ----- what every step keeps -----

  /** Calls have ids of their own, in the order they were taken. */
  ghost predicate IdsApart(s: State) {
    && (forall c :: c in s.calls && !s.calls[c].Started? ==> 1 <= s.calls[c].id <= s.shared.nextId)
    && (forall c, d :: c in s.calls && d in s.calls && c != d && !s.calls[c].Started? && !s.calls[d].Started? ==>
          s.calls[c].id != s.calls[d].id)
  }

  /** A call between registering and forgetting. */
  predicate MayBePending(call: Call) {
    call.Registered? || call.Waiting? || call.Leaving?
  }

  /** Whoever is pending is there, under its own id, and has been sent nothing. */
  ghost predicate PendingIsLive(s: State) {
    forall id :: id in s.shared.pending ==>
      var c := s.shared.pending[id];
      && c in s.calls && MayBePending(s.calls[c]) && s.calls[c].id == id
      && c in s.channels && s.channels[c] == Channel([], 0)
  }

  predicate ChannelFits(call: Call, channel: Channel, pending: map<int, nat>) {
    if channel.sent == 0 then channel.buffer == []
    else
      && channel.sent == 1 && |channel.buffer| <= CAPACITY && !call.Started? && !call.Numbered? && call.id !in pending
      && (forall i :: 0 <= i < |channel.buffer| ==> channel.buffer[i].id == call.id)
  }

  /** Every channel was sent at most one message: its own call's response. */
  ghost predicate ChannelsFit(s: State) {
    s.channels.Keys == s.calls.Keys
    && forall c :: c in s.calls ==> ChannelFits(s.calls[c], s.channels[c], s.shared.pending)
  }

  /** What the reader is about to send has a call that waits for it, and room. */
  ghost predicate ReaderFits(s: State) {
    s.reader.Delivering? ==>
      var c := s.reader.call;
      && c in s.calls && !s.calls[c].Started? && !s.calls[c].Numbered? && s.calls[c].id == s.reader.message.id
      && s.reader.message.id !in s.shared.pending
      && c in s.channels && s.channels[c] == Channel([], 0)
      && !(s.calls[c].Returned? && s.calls[c].outcome.Answered?)
  }

  /** A call that saw the connection end. */
  predicate HasSeenDone(call: Call) {
    call.Asking? || (call.Leaving? && call.reason == ConnectionDone)
  }

  /** done is closed exactly when the reader has stopped, and nobody sees it closed before. */
  ghost predicate EndFits(s: State) {
    && s.shared.Valid() && (s.reader.Stopped? <==> s.shared.err.Some?)
    && (forall c :: c in s.calls && HasSeenDone(s.calls[c]) ==> s.shared.err.Some?)
  }

  ghost predicate AnswerFits(call: Call, channel: Channel) {
    call.Returned? && call.outcome.Answered? ==> call.outcome.message.id == call.id && channel == Channel([], 1)
  }

  /** A call that returned an answer returned its own, and took it from its channel. */
  ghost predicate AnswersFit(s: State) {
    forall c :: c in s.calls && c in s.channels ==> AnswerFits(s.calls[c], s.channels[c])
  }

  ghost predicate Invariant(s: State) {
    IdsApart(s) && PendingIsLive(s) && ChannelsFit(s) && ReaderFits(s) && EndFits(s) && AnswersFit(s)
  }

  lemma InitialInvariant()
    ensures Invariant(Initial())
  {
  }

  /** The next place of a call that moves on with its id, waiting for what it did. */
  ghost predicate MovesOn(s: State, c: nat, next: Call) {
    && c in s.calls && !s.calls[c].Started? && !next.Started? && !next.Numbered? && next.id == s.calls[c].id
    && (MayBePending(s.calls[c]) ==> MayBePending(next))
    && !s.calls[c].Returned? && !(next.Returned? && next.outcome.Answered?)
    && (HasSeenDone(next) ==> s.shared.err.Some?)
  }

  lemma MoveKeepsIds(s: State, c: nat, next: Call)
    requires IdsApart(s) && PendingIsLive(s) && MovesOn(s, c, next)
    ensures IdsApart(s.(calls := s.calls[c := next])) && PendingIsLive(s.(calls := s.calls[c := next]))
  {
  }

  lemma MoveKeeps(s: State, c: nat, next: Call)
    requires Invariant(s) && MovesOn(s, c, next)
    ensures Invariant(s.(calls := s.calls[c := next]))
  {
    MoveKeepsIds(s, c, next);
    hide IdsApart, PendingIsLive;
    var t := s.(calls := s.calls[c := next]);
    assert ChannelsFit(t);
    assert AnswersFit(t);
  }

  lemma StartKeeps(s: State, c: nat)
    requires Invariant(s) && c !in s.calls
    ensures Invariant(s.(calls := s.calls[c := Started], channels := s.channels[c := Channel([], 0)]))
  {
    var t := s.(calls := s.calls[c := Started], channels := s.channels[c := Channel([], 0)]);
    assert PendingIsLive(t);
    assert ChannelsFit(t);
    assert AnswersFit(t);
  }

  lemma NumberKeeps(s: State, c: nat)
    requires Invariant(s) && c in s.calls && s.calls[c].Started?
    ensures var id := s.shared.nextId + 1;
            Invariant(s.(shared := s.shared.(nextId := id), calls := s.calls[c := Numbered(id)]))
  {
    var id := s.shared.nextId + 1;
    var t := s.(shared := s.shared.(nextId := id), calls := s.calls[c := Numbered(id)]);
    assert IdsApart(t);
    assert PendingIsLive(t);
    assert ChannelsFit(t);
    assert AnswersFit(t);
  }

  lemma RegisterKeepsIds(s: State, c: nat)
    requires IdsApart(s) && PendingIsLive(s) && c in s.calls && s.calls[c].Numbered? && s.shared.err.None?
    requires c in s.channels && s.channels[c] == Channel([], 0)
    ensures var id := s.calls[c].id;
            var t := s.(shared := s.shared.Registered(id, c), calls := s.calls[c := Registered(id)]);
            IdsApart(t) && PendingIsLive(t)
  {
  }

  lemma RegisterKeeps(s: State, c: nat)
    requires Invariant(s) && c in s.calls && s.calls[c].Numbered? && s.shared.err.None?
    ensures var id := s.calls[c].id;
            Invariant(s.(shared := s.shared.Registered(id, c), calls := s.calls[c := Registered(id)]))
  {
    var id := s.calls[c].id;
    var t := s.(shared := s.shared.Registered(id, c), calls := s.calls[c := Registered(id)]);
    assert s.channels[c] == Channel([], 0);
    RegisterKeepsIds(s, c);
    assert forall d :: d in s.calls && d != c && !s.calls[d].Started? ==> s.calls[d].id != id;
    hide IdsApart, PendingIsLive;
    assert ChannelsFit(t);
    assert AnswersFit(t);
    assert ReaderFits(t);
  }

  lemma ReceiveKeeps(s: State, c: nat)
    requires Invariant(s) && c in s.calls && s.calls[c].Waiting? && s.channels[c].buffer != []
    ensures var channel := s.channels[c];
            Invariant(s.(calls := s.calls[c := Returned(s.calls[c].id, Answered(channel.buffer[0]))],
                         channels := s.channels[c := channel.(buffer := channel.buffer[1..])]))
  {
    var channel := s.channels[c];
    var t := s.(calls := s.calls[c := Returned(s.calls[c].id, Answered(channel.buffer[0]))],
                channels := s.channels[c := channel.(buffer := channel.buffer[1..])]);
    assert ChannelFits(s.calls[c], channel, s.shared.pending);
    assert IdsApart(t);
    assert PendingIsLive(t);
    hide IdsApart, PendingIsLive;
    assert ChannelsFit(t);
    assert AnswersFit(t);
  }

  lemma ForgetKeepsIds(s: State, c: nat)
    requires IdsApart(s) && PendingIsLive(s) && c in s.calls && s.calls[c].Leaving?
    ensures var id, reason := s.calls[c].id, s.calls[c].reason;
            var t := s.(shared := s.shared.Forgotten(id), calls := s.calls[c := AfterForgetting(id, reason)]);
            IdsApart(t) && PendingIsLive(t)
  {
  }

  lemma ForgetKeeps(s: State, c: nat)
    requires Invariant(s) && c in s.calls && s.calls[c].Leaving?
    ensures var id, reason := s.calls[c].id, s.calls[c].reason;
            Invariant(s.(shared := s.shared.Forgotten(id), calls := s.calls[c := AfterForgetting(id, reason)]))
  {
    ForgetKeepsIds(s, c);
    hide IdsApart, PendingIsLive;
    var id, reason := s.calls[c].id, s.calls[c].reason;
    var t := s.(shared := s.shared.Forgotten(id), calls := s.calls[c := AfterForgetting(id, reason)]);
    assert ChannelsFit(t);
    assert AnswersFit(t);
  }

  /** The steps that only move a call on. */
  lemma MovesKeep(s: State, a: Action)
    requires a.FailToMarshal? || a.FailToWrite? || a.Write? || a.SeeDone? || a.Cancel? || a.Ask?
    requires Invariant(s) && CallStep(s, a).Some?
    ensures Invariant(CallStep(s, a).value)
  {
    EndedHasError(s, a.call);
    hide Invariant;
    MoveKeeps(s, a.call, CallStep(s, a).value.calls[a.call]);
  }

  lemma RegisterStepKeeps(s: State, a: Action)
    requires Invariant(s) && a.Register? && CallStep(s, a).Some?
    ensures Invariant(CallStep(s, a).value)
  {
    hide Invariant;
    if s.shared.err.None? {
      RegisterKeeps(s, a.call);
    } else {
      MoveKeeps(s, a.call, CallStep(s, a).value.calls[a.call]);
    }
  }

  lemma OtherStepsKeep(s: State, a: Action)
    requires a.Start? || a.Number? || a.Receive? || a.Forget?
    requires Invariant(s) && CallStep(s, a).Some?
    ensures Invariant(CallStep(s, a).value)
  {
    hide Invariant;
    if a.Start? {
      StartKeeps(s, a.call);
    } else if a.Number? {
      NumberKeeps(s, a.call);
    } else if a.Receive? {
      ReceiveKeeps(s, a.call);
    } else {
      ForgetKeeps(s, a.call);
    }
  }

  lemma CallStepKeeps(s: State, a: Action)
    requires Invariant(s) && !a.OfReader()
    requires CallStep(s, a).Some?
    ensures Invariant(CallStep(s, a).value)
  {
    hide CallStep, Invariant;
    if a.Register? {
      RegisterStepKeeps(s, a);
    } else if a.Start? || a.Number? || a.Receive? || a.Forget? {
      OtherStepsKeep(s, a);
    } else {
      MovesKeep(s, a);
    }
  }

  lemma EndedHasError(s: State, c: nat)
    requires Invariant(s)
    ensures s.shared.closings > 0 <==> s.shared.err.Some?
  {
  }

  lemma TakeKeeps(s: State)
    requires Invariant(s) && s.reader.Holding?
    ensures var id, reader := s.reader.message.id, AfterTaking(s.shared, s.reader.message);
            Invariant(s.(shared := s.shared.Forgotten(id), reader := reader))
  {
    var id := s.reader.message.id;
    var reader := AfterTaking(s.shared, s.reader.message);
    var t := s.(shared := s.shared.Forgotten(id), reader := reader);
    assert PendingIsLive(t);
    assert ChannelsFit(t);
    assert ReaderFits(t);
  }

  lemma DeliverKeeps(s: State)
    requires Invariant(s) && s.reader.Delivering?
    ensures var c := s.reader.call;
            && c in s.channels && |s.channels[c].buffer| < CAPACITY
            && Invariant(s.(channels := s.channels[c := Channel([s.reader.message], 1)], reader := Reading))
  {
    var c := s.reader.call;
    var t := s.(channels := s.channels[c := Channel([s.reader.message], 1)], reader := Reading);
    assert PendingIsLive(t);
    assert ChannelsFit(t);
    assert AnswersFit(t);
  }

  lemma EndKeeps(s: State)
    requires Invariant(s) && s.reader.Failing?
    ensures Invariant(s.(shared := s.shared.Failed(s.reader.error), reader := Stopped))
  {
    var t := s.(shared := s.shared.Failed(s.reader.error), reader := Stopped);
    assert PendingIsLive(t);
    assert ChannelsFit(t);
    assert AnswersFit(t);
  }

  lemma ReaderGoesOn(s: State, reader: Reader)
    requires Invariant(s) && s.reader.Reading? && (reader.Reading? || reader.Holding? || reader.Failing?)
    ensures Invariant(s.(reader := reader))
  {
    var t := s.(reader := reader);
    assert PendingIsLive(t);
    assert ChannelsFit(t);
    assert AnswersFit(t);
  }

  lemma ReaderStepKeeps(s: State, a: Action)
    requires Invariant(s) && a.OfReader()
    requires ReaderStep(s, a).Some?
    ensures Invariant(ReaderStep(s, a).value)
  {
    if a.Deliver? {
      SentNothing(s);
    }
    hide Invariant;
    if a.Take? {
      TakeKeeps(s);
    } else if a.Deliver? {
      DeliverKeeps(s);
      assert [] + [s.reader.message] == [s.reader.message];
    } else if a.End? {
      EndKeeps(s);
    } else {
      ReaderGoesOn(s, ReaderStep(s, a).value.reader);
    }
  }

  lemma SentNothing(s: State)
    requires Invariant(s) && s.reader.Delivering?
    ensures s.reader.call in s.channels && s.channels[s.reader.call] == Channel([], 0)
  {
  }

  lemma {:induction false} RunKeeps(actions: seq<Action>)
    requires Run(actions).Some?
    ensures Invariant(Run(actions).value)
  {
    if actions == [] {
      InitialInvariant();
    } else {
      hide Invariant, CallStep, ReaderStep;
      var s, a := Run(actions[..|actions| - 1]).value, actions[|actions| - 1];
      RunKeeps(actions[..|actions| - 1]);
      if a.OfReader() {
        ReaderStepKeeps(s, a);
      } else {
        CallStepKeeps(s, a);
      }
    }
  }

  // ----- no response is lost -----

  /** A call that may be pending is pending, or its response is on its way or has come. */
  ghost predicate IsAccounted(s: State, c: nat)
    requires c in s.calls && MayBePending(s.calls[c])
  {
    var id := s.calls[c].id;
    || (id in s.shared.pending && s.shared.pending[id] == c)
    || (s.reader.Delivering? && s.reader.call == c && s.reader.message.id == id)
    || (c in s.channels && s.channels[c].buffer != [])
  }

  ghost predicate AllAccounted(s: State) {
    forall c :: c in s.calls && MayBePending(s.calls[c]) ==> IsAccounted(s, c)
  }

  lemma CallStepAccounts(s: State, a: Action, c: nat)
    requires Invariant(s) && AllAccounted(s) && !a.OfReader() && CallStep(s, a).Some?
    requires var t := CallStep(s, a).value; c in t.calls && MayBePending(t.calls[c])
    ensures IsAccounted(CallStep(s, a).value, c)
  {
    hide ChannelsFit, ReaderFits, EndFits, AnswersFit, PendingIsLive;
    var t := CallStep(s, a).value;
    if c != a.call {
      assert t.calls[c] == s.calls[c] && IsAccounted(s, c);
      if a.Forget? {
        assert s.calls[a.call].id != s.calls[c].id;
      } else if a.Register? {
        assert s.calls[a.call].id != s.calls[c].id;
      }
    } else if !a.Register? {
      assert t.calls[c].id == s.calls[c].id && MayBePending(s.calls[c]) && IsAccounted(s, c);
    }
  }

  lemma ReaderStepAccounts(s: State, a: Action, c: nat)
    requires Invariant(s) && AllAccounted(s) && a.OfReader() && ReaderStep(s, a).Some?
    requires c in s.calls && MayBePending(s.calls[c])
    ensures ReaderStep(s, a).value.calls == s.calls && IsAccounted(ReaderStep(s, a).value, c)
  {
    hide ChannelsFit, ReaderFits, EndFits, AnswersFit, PendingIsLive, IdsApart;
    assert IsAccounted(s, c);
    if a.Deliver? {
      assert s.channels[s.reader.call].buffer + [s.reader.message] != [];
    }
  }

  lemma {:induction false} RunAccounts(actions: seq<Action>)
    requires Run(actions).Some?
    ensures AllAccounted(Run(actions).value)
  {
    if actions != [] {
      hide Invariant, CallStep, ReaderStep, IsAccounted;
      var before, a := actions[..|actions| - 1], actions[|actions| - 1];
      var s := Run(before).value;
      RunKeeps(before);
      RunAccounts(before);
      forall c | c in Run(actions).value.calls && MayBePending(Run(actions).value.calls[c])
        ensures IsAccounted(Run(actions).value, c)
      {
        if a.OfReader() {
          ReaderCallsNobody(s, a);
          ReaderStepAccounts(s, a, c);
        } else {
          CallStepAccounts(s, a, c);
        }
      }
    }
  }

  lemma ReaderCallsNobody(s: State, a: Action)
    requires a.OfReader() && ReaderStep(s, a).Some?
    ensures ReaderStep(s, a).value.calls == s.calls
  {
  }

  // ----- what callers rely on, in every interleaving -----

  /** A response reaches only the call with its id. */
  lemma ResponseReachesItsCall(actions: seq<Action>, c: nat)
    requires Run(actions).Some? && c in Run(actions).value.calls
    requires Run(actions).value.calls[c].Returned? && Run(actions).value.calls[c].outcome.Answered?
    ensures Run(actions).value.calls[c].outcome.message.id == Run(actions).value.calls[c].id
  {
    RunKeeps(actions);
  }

  /** At most one message is ever sent to a call. */
  lemma AtMostOnce(actions: seq<Action>, c: nat)
    requires Run(actions).Some? && c in Run(actions).value.calls
    ensures c in Run(actions).value.channels && Run(actions).value.channels[c].sent <= 1
  {
    RunKeeps(actions);
    assert ChannelFits(Run(actions).value.calls[c], Run(actions).value.channels[c], Run(actions).value.shared.pending);
  }

  /** The reader never blocks on a send. */
  lemma ReaderNeverBlocks(actions: seq<Action>)
    requires Run(actions).Some? && Run(actions).value.reader.Delivering?
    ensures Step(Run(actions).value, Deliver).Some?
  {
    RunKeeps(actions);
  }

  /** No id of a call that has returned stays pending. */
  lemma NothingLeaks(actions: seq<Action>, c: nat)
    requires Run(actions).Some? && c in Run(actions).value.calls && Run(actions).value.calls[c].Returned?
    ensures Run(actions).value.calls[c].id !in Run(actions).value.shared.pending
  {
    RunKeeps(actions);
  }

  /** done is closed exactly once, and exactly when there is an error. */
  lemma DoneIffError(actions: seq<Action>)
    requires Run(actions).Some?
    ensures Run(actions).value.shared.closings == if Run(actions).value.shared.err.Some? then 1 else 0
    ensures Run(actions).value.shared.err.Some? <==> Run(actions).value.reader.Stopped?
  {
    RunKeeps(actions);
  }

  /** Once the connection has ended, its error stays. */
  lemma ErrorIsFinal(s: State, a: Action)
    requires s.shared.err.Some? && Step(s, a).Some?
    ensures Step(s, a).value.shared.err == s.shared.err
  {
  }

  /** The steps a call may still take. */
  function StepsLeft(call: Call): nat {
    match call
    case Started => 6
    case Numbered(_) => 5
    case Registered(_) => 4
    case Waiting(_) => 3
    case Leaving(_, _) => 2
    case Asking(_) => 1
    case Returned(_, _) => 0
  }

  /** Every step of a call brings it nearer to its end. */
  lemma CallsProgress(s: State, a: Action)
    requires !a.Start? && !a.OfReader() && CallStep(s, a).Some?
    ensures a.call in s.calls && a.call in CallStep(s, a).value.calls
    ensures StepsLeft(CallStep(s, a).value.calls[a.call]) < StepsLeft(s.calls[a.call])
  {
  }

  /** The step that a call can take in any case once the connection has ended. */
  function NextStep(c: nat, call: Call): Action {
    match call
    case Started => Number(c)
    case Numbered(_) => Register(c)
    case Registered(_) => Write(c)
    case Waiting(_) => SeeDone(c)
    case Leaving(_, _) => Forget(c)
    case _ => Ask(c)
  }

  /** Once the connection has ended, no call is stuck. */
  lemma EndedCallsCanReturn(actions: seq<Action>, c: nat)
    requires Run(actions).Some? && Run(actions).value.shared.err.Some?
    requires c in Run(actions).value.calls && !Run(actions).value.calls[c].Returned?
    ensures Step(Run(actions).value, NextStep(c, Run(actions).value.calls[c])).Some?
  {
    RunKeeps(actions);
  }

  /** In every interleaving a call that waits is pending under its id, or the
      reader is about to send its response, or its channel has it. */
  lemma NoResponseIsLost(actions: seq<Action>, c: nat)
    requires Run(actions).Some? && c in Run(actions).value.calls && Run(actions).value.calls[c].Waiting?
    ensures var s := Run(actions).value;
            var id := s.calls[c].id;
            || (id in s.shared.pending && s.shared.pending[id] == c)
            || (s.reader.Delivering? && s.reader.call == c && s.reader.message.id == id)
            || (c in s.channels && |s.channels[c].buffer| == 1 && s.channels[c].buffer[0].id == id)
  {
    RunKeeps(actions);
    RunAccounts(actions);
    var s := Run(actions).value;
    assert IsAccounted(s, c);
    assert ChannelFits(s.calls[c], s.channels[c], s.shared.pending);
  }

  /** In every interleaving a message that the reader holds goes to the call
      that waits for it, unless that has an answer already. */
  lemma MessageFindsItsCall(actions: seq<Action>, c: nat)
    requires Run(actions).Some? && Run(actions).value.reader.Holding?
    requires c in Run(actions).value.calls &&
             Run(actions).value.calls[c] == Waiting(Run(actions).value.reader.message.id)
    ensures var s := Run(actions).value;
            && Step(s, Take).Some? && c in s.channels
            && (Step(s, Take).value.reader == Delivering(s.reader.message, c) || s.channels[c].buffer != [])
  {
    NoResponseIsLost(actions, c);
    RunKeeps(actions);
  }

  /** The response to a call that waits is what the call returns, if it is not cancelled first. */
  lemma WaitingCallIsAnswered(actions: seq<Action>, c: nat, message: Message)
    requires Run(actions).Some? && message.id != 0
    requires var s := Run(actions).value;
             && s.reader.Reading? && c in s.calls && s.calls[c] == Waiting(message.id)
             && c in s.channels && s.channels[c].buffer == []
    ensures var after := Run(actions + [Arrive(message)] + [Take] + [Deliver] + [Receive(c)]);
            after.Some? && after.value.calls[c] == Returned(message.id, Answered(message))
  {
    NoResponseIsLost(actions, c);
    PendingIsEmpty(actions, message.id);
    var s := Run(actions).value;
    hide Invariant, Run;
    RunSnoc(actions, Arrive(message));
    RunSnoc(actions + [Arrive(message)], Take);
    RunSnoc(actions + [Arrive(message)] + [Take], Deliver);
    RunSnoc(actions + [Arrive(message)] + [Take] + [Deliver], Receive(c));
    Answering(s, c, message);
  }

  lemma PendingIsEmpty(actions: seq<Action>, id: int)
    requires Run(actions).Some? && id in Run(actions).value.shared.pending
    ensures var s := Run(actions).value;
            s.shared.pending[id] in s.channels && s.channels[s.shared.pending[id]] == Channel([], 0)
  {
    RunKeeps(actions);
  }

  /** A call whose response has come can return it at once. */
  lemma AnsweredCallReturns(actions: seq<Action>, c: nat)
    requires Run(actions).Some? && c in Run(actions).value.calls && Run(actions).value.calls[c].Waiting?
    requires c in Run(actions).value.channels && Run(actions).value.channels[c].buffer != []
    ensures var s := Run(actions).value;
            var after := Step(s, Receive(c));
            && after.Some? && s.channels[c].buffer[0].id == s.calls[c].id
            && after.value.calls[c] == Returned(s.calls[c].id, Answered(s.channels[c].buffer[0]))
  {
    RunKeeps(actions);
    var s := Run(actions).value;
    assert ChannelFits(s.calls[c], s.channels[c], s.shared.pending);
  }

  // ----- after the end -----

  /** The connection has ended with the error, and the call gets no answer from it. */
  ghost predicate EndedWithout(s: State, c: nat, error: Error) {
    && s.shared.err == Some(error) && s.reader.Stopped? && (c in s.channels ==> s.channels[c].buffer == [])
    && (c in s.calls && s.calls[c].Returned? ==>
          s.calls[c].outcome == Failed(error)
          || s.calls[c].outcome in {GaveUp(MarshalFailed), GaveUp(WriteFailed), GaveUp(Cancelled)})
  }

  /** The connection has ended with the error, and the call has not registered. */
  ghost predicate EndedBefore(s: State, c: nat, error: Error) {
    && s.shared.err == Some(error)
    && (c in s.calls ==>
          || s.calls[c].Started? || s.calls[c].Numbered?
          || (s.calls[c].Returned? && s.calls[c].outcome == Failed(error)))
  }

  lemma StepAfterEnd(s: State, a: Action, c: nat, error: Error)
    requires Step(s, a).Some?
    ensures EndedWithout(s, c, error) ==> EndedWithout(Step(s, a).value, c, error)
    ensures EndedBefore(s, c, error) ==> EndedBefore(Step(s, a).value, c, error)
  {
  }

  lemma {:induction false} RunAfterEnd(before: seq<Action>, after: seq<Action>, c: nat, error: Error)
    requires Run(before + after).Some?
    ensures Run(before).Some?
    ensures EndedWithout(Run(before).value, c, error) ==> EndedWithout(Run(before + after).value, c, error)
    ensures EndedBefore(Run(before).value, c, error) ==> EndedBefore(Run(before + after).value, c, error)
  {
    if after == [] {
      assert before + after == before;
    } else {
      hide EndedWithout, EndedBefore, Step;
      var front, last := after[..|after| - 1], after[|after| - 1];
      assert (before + after)[..|before + after| - 1] == before + front;
      assert Run(before + front).Some?;
      RunAfterEnd(before, front, c, error);
      StepAfterEnd(Run(before + front).value, last, c, error);
    }
  }

  /** When the connection ends, every call that is pending fails: whatever
      happens then, it returns the error that ended the connection, unless it
      had not been sent or is cancelled. */
  lemma PendingCallsFail(before: seq<Action>, after: seq<Action>, id: int)
    requires Run(before).Some? && Run(before).value.shared.err.Some? && id in Run(before).value.shared.pending
    requires Run(before + after).Some?
    ensures var c, s := Run(before).value.shared.pending[id], Run(before + after).value;
            c in s.calls && s.calls[c].Returned? ==>
              s.calls[c].outcome == Failed(Run(before).value.shared.err.value)
              || s.calls[c].outcome in {GaveUp(MarshalFailed), GaveUp(WriteFailed), GaveUp(Cancelled)}
  {
    RunKeeps(before);
    var s := Run(before).value;
    var c := s.shared.pending[id];
    assert c in s.calls && MayBePending(s.calls[c]) && s.channels[c] == Channel([], 0);
    assert EndedWithout(s, c, s.shared.err.value);
    RunAfterEnd(before, after, c, s.shared.err.value);
  }

  /** Every call that registers later returns that error. */
  lemma LaterCallsFail(before: seq<Action>, after: seq<Action>, c: nat)
    requires Run(before).Some? && Run(before).value.shared.err.Some?
    requires c !in Run(before).value.calls || Run(before).value.calls[c].Started? ||
             Run(before).value.calls[c].Numbered?
    requires Run(before + after).Some?
    ensures var s := Run(before + after).value;
            c in s.calls && s.calls[c].Returned? ==> s.calls[c].outcome == Failed(Run(before).value.shared.err.value)
  {
    RunAfterEnd(before, after, c, Run(before).value.shared.err.value);
  }

  lemma Answering(s: State, c: nat, message: Message)
    requires message.id != 0 && s.reader.Reading? && c in s.calls && s.calls[c] == Waiting(message.id)
    requires message.id in s.shared.pending && s.shared.pending[message.id] == c
    requires c in s.channels && s.channels[c] == Channel([], 0)
    ensures Step(s, Arrive(message)).Some?
    ensures var s1 := Step(s, Arrive(message)).value; Step(s1, Take).Some?
    ensures var s1 := Step(s, Arrive(message)).value; var s2 := Step(s1, Take).value; Step(s2, Deliver).Some?
    ensures var s1 := Step(s, Arrive(message)).value; var s2 := Step(s1, Take).value; var s3 := Step(s2, Deliver).value;
            && Step(s3, Receive(c)).Some? && c in Step(s3, Receive(c)).value.calls
            && Step(s3, Receive(c)).value.calls[c] == Returned(message.id, Answered(message))
  {
    var s1 := s.(reader := Holding(message));
    var s2 := s1.(shared := s.shared.Forgotten(message.id), reader := Delivering(message, c));
    var s3 := s2.(channels := s.channels[c := Channel([message], 1)], reader := Reading);
    assert Step(s, Arrive(message)) == Some(s1);
    assert Step(s1, Take) == Some(s2);
    assert [] + [message] == [message];
    assert Step(s2, Deliver) == Some(s3);
  }

  lemma RunSnoc(actions: seq<Action>, a: Action)
    requires Run(actions).Some?
    ensures Run(actions + [a]) == Step(Run(actions).value, a)
  {
    assert (actions + [a])[..|actions|] == actions;
  }
}
