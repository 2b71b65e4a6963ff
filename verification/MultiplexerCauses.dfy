/** Why things happen in pkg/cdp/cdp.go:101-199: whatever the interleaving, a
    call returns only what its own steps and the reader's brought about. */
module MultiplexerCauses {
  import opened Wrappers
  import opened Connection
  import opened Multiplexer

  /** The steps without which a call does not give up. */
  predicate ReasonHasCause(reason: Reason, c: nat, actions: seq<Action>) {
    match reason
    case MarshalFailed => FailToMarshal(c) in actions
    case WriteFailed => Write(c) !in actions && FailToWrite(c) in actions
    case Cancelled => Write(c) in actions && Cancel(c) in actions
    case ConnectionDone => Write(c) in actions && SeeDone(c) in actions && End in actions
  }

  /** The steps without which a call does not return an outcome: an answer
      arrived and was received, an error broke the connection and ended it, and
      nobody gives up because the connection is done without its error. */
  predicate OutcomeHasCause(outcome: Outcome, c: nat, actions: seq<Action>) {
    match outcome
    case Answered(message) => Write(c) in actions && Arrive(message) in actions && Receive(c) in actions
    case Failed(error) => Break(error) in actions && End in actions
    case GaveUp(reason) => reason != ConnectionDone && ReasonHasCause(reason, c, actions)
  }

  predicate CallHasCause(call: Call, c: nat, actions: seq<Action>) {
    match call
    case Registered(_) => Write(c) !in actions
    case Numbered(_) => Write(c) !in actions
    case Started => Write(c) !in actions
    case Waiting(_) => Write(c) in actions
    case Leaving(_, reason) => ReasonHasCause(reason, c, actions)
    case Returned(_, outcome) => OutcomeHasCause(outcome, c, actions)
    case _ => true
  }

  predicate ReaderHasCause(reader: Reader, actions: seq<Action>) {
    match reader
    case Holding(message) => Arrive(message) in actions
    case Delivering(message, _) => Arrive(message) in actions
    case Failing(error) => Break(error) in actions
    case _ => true
  }

  ghost predicate HasCauses(s: State, actions: seq<Action>) {
    && (forall c :: c in s.calls ==> CallHasCause(s.calls[c], c, actions))
    && (forall c: nat :: c !in s.calls ==> Write(c) !in actions)
    && (forall c, i :: c in s.channels && 0 <= i < |s.channels[c].buffer| ==>
          Arrive(s.channels[c].buffer[i]) in actions)
    && ReaderHasCause(s.reader, actions)
    && (s.shared.err.Some? ==> Break(s.shared.err.value) in actions && End in actions)
    && (s.shared.closings > 0 ==> End in actions)
    && s.shared.nextId == Numbers(actions)
  }

  /** How many calls took a number. */
  function Numbers(actions: seq<Action>): nat {
    if actions == [] then 0
    else Numbers(actions[..|actions| - 1]) + (if actions[|actions| - 1].Number? then 1 else 0)
  }

  lemma CausesStay(call: Call, c: nat, actions: seq<Action>, a: Action)
    requires CallHasCause(call, c, actions) && a != Write(c)
    ensures CallHasCause(call, c, actions + [a])
  {
  }

  /** A step adds itself to what has happened. */
  lemma OneMore(actions: seq<Action>, a: Action)
    ensures forall b :: b in actions + [a] <==> b in actions || b == a
    ensures Numbers(actions + [a]) == Numbers(actions) + (if a.Number? then 1 else 0)
  {
    assert (actions + [a])[..|actions|] == actions;
  }

  lemma CallStepHasCauses(s: State, actions: seq<Action>, a: Action)
    requires HasCauses(s, actions) && !a.OfReader() && CallStep(s, a).Some?
    ensures HasCauses(CallStep(s, a).value, actions + [a])
  {
    hide Numbers, CallHasCause;
    var t := CallStep(s, a).value;
    OneMore(actions, a);
    ReaderStaysCaused(s.reader, actions, a);
    forall c | c in t.calls
      ensures CallHasCause(t.calls[c], c, actions + [a])
    {
      if c == a.call {
        OwnStepHasCause(s, actions, a);
      } else {
        CausesStay(s.calls[c], c, actions, a);
      }
    }
  }

  lemma ReaderStaysCaused(reader: Reader, actions: seq<Action>, a: Action)
    requires ReaderHasCause(reader, actions)
    ensures ReaderHasCause(reader, actions + [a])
  {
  }

  lemma OwnStepHasCause(s: State, actions: seq<Action>, a: Action)
    requires HasCauses(s, actions) && !a.OfReader() && CallStep(s, a).Some?
    ensures a.call in CallStep(s, a).value.calls
    ensures CallHasCause(CallStep(s, a).value.calls[a.call], a.call, actions + [a])
  {
    hide Numbers;
    OneMore(actions, a);
    assert a.call in s.calls ==> CallHasCause(s.calls[a.call], a.call, actions);
  }

  lemma ReaderStepHasCauses(s: State, actions: seq<Action>, a: Action)
    requires HasCauses(s, actions) && a.OfReader() && ReaderStep(s, a).Some?
    ensures HasCauses(ReaderStep(s, a).value, actions + [a])
  {
    hide Numbers, CallHasCause;
    var t := ReaderStep(s, a).value;
    OneMore(actions, a);
    forall c | c in t.calls
      ensures CallHasCause(t.calls[c], c, actions + [a])
    {
      CausesStay(s.calls[c], c, actions, a);
    }
  }

  lemma StepHasCauses(s: State, actions: seq<Action>, a: Action)
    requires HasCauses(s, actions) && Step(s, a).Some?
    ensures HasCauses(Step(s, a).value, actions + [a])
  {
    hide HasCauses, CallStep, ReaderStep;
    if a.OfReader() {
      ReaderStepHasCauses(s, actions, a);
    } else {
      CallStepHasCauses(s, actions, a);
    }
  }

  lemma {:induction false} RunHasCauses(actions: seq<Action>)
    requires Run(actions).Some?
    ensures HasCauses(Run(actions).value, actions)
  {
    if actions != [] {
      hide Step, HasCauses;
      var front, last := actions[..|actions| - 1], actions[|actions| - 1];
      RunHasCauses(front);
      StepHasCauses(Run(front).value, front, last);
      assert actions == front + [last];
    } else {
      assert forall a: Action :: a !in actions;
    }
  }

  /** Whatever a call returns was brought about by the steps that have it happen. */
  lemma OutcomesHaveCauses(actions: seq<Action>, c: nat)
    requires Run(actions).Some? && c in Run(actions).value.calls && Run(actions).value.calls[c].Returned?
    ensures OutcomeHasCause(Run(actions).value.calls[c].outcome, c, actions)
  {
    RunHasCauses(actions);
    assert CallHasCause(Run(actions).value.calls[c], c, actions);
  }

  /** Ids count up by one: the last one taken is the number of calls that took one. */
  lemma IdsCountUp(actions: seq<Action>)
    requires Run(actions).Some?
    ensures Run(actions).value.shared.nextId == Numbers(actions)
  {
    RunHasCauses(actions);
  }

  // ----- which steps can be taken -----

  /** When a step can be taken: each where the one before it in its goroutine
      has led, a receipt when there is something to receive, and the sight of
      the end once there is an error. */
  predicate Enabled(s: State, a: Action) {
    match a
    case Start(c) => c !in s.calls
    case Number(c) => c in s.calls && s.calls[c].Started?
    case Register(c) => c in s.calls && s.calls[c].Numbered?
    case FailToMarshal(c) => c in s.calls && s.calls[c].Registered?
    case FailToWrite(c) => c in s.calls && s.calls[c].Registered?
    case Write(c) => c in s.calls && s.calls[c].Registered?
    case Receive(c) => c in s.calls && s.calls[c].Waiting? && c in s.channels && s.channels[c].buffer != []
    case SeeDone(c) => c in s.calls && s.calls[c].Waiting? && s.shared.err.Some?
    case Cancel(c) => c in s.calls && s.calls[c].Waiting?
    case Forget(c) => c in s.calls && s.calls[c].Leaving?
    case Ask(c) => c in s.calls && s.calls[c].Asking?
    case Arrive(_) => s.reader.Reading?
    case Take => s.reader.Holding?
    case Deliver => s.reader.Delivering?
    case Break(_) => s.reader.Reading?
    case End => s.reader.Failing?
  }

  /** In every interleaving, nothing but what a step waits for keeps it from being taken. */
  lemma TakenIffEnabled(actions: seq<Action>, a: Action)
    requires Run(actions).Some?
    ensures Run(actions + [a]).Some? <==> Enabled(Run(actions).value, a)
  {
    RunKeeps(actions);
    RunSnoc(actions, a);
  }
}
