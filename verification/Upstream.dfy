/** The counters of upstream calls, updated by many observers at once. */
module Upstream {
  import opened Counting

  datatype Counters = Counters(requests: int, nanos: int, transport: int, success: int, clientErrors: int, serverErrors: int)

  datatype Class = Transport | Success | ClientError | ServerError

  function Classify(status: int): Class {
    if status == 0 then Transport
    else if 200 <= status < 300 then Success
    else if 400 <= status < 500 then ClientError
    else ServerError
  }

  // An observer between its atomic additions.
  datatype Observer =
    | Starting(status: int, nanos: int)
    | Requested(status: int, nanos: int)
    | Timed(status: int, nanos: int)
    | Recorded(status: int, nanos: int)

  datatype State = State(observers: seq<Observer>, counters: Counters)

  datatype Action = Begin(status: int, nanos: int) | Move(id: nat)

  function Tally(c: Counters, class_: Class): Counters {
    match class_
    case Transport => c.(transport := c.transport + 1)
    case Success => c.(success := c.success + 1)
    case ClientError => c.(clientErrors := c.clientErrors + 1)
    case ServerError => c.(serverErrors := c.serverErrors + 1)
  }

  function Next(s: State, a: Action): State {
    match a
    case Begin(status, nanos) => s.(observers := s.observers + [Starting(status, nanos)])
    case Move(id) =>
      if id >= |s.observers| then s else
      var c := s.counters;
      match s.observers[id]
      case Starting(st, n) => State(s.observers[id := Requested(st, n)], c.(requests := c.requests + 1))
      case Requested(st, n) => State(s.observers[id := Timed(st, n)], c.(nanos := c.nanos + n))
      case Timed(st, n) => State(s.observers[id := Recorded(st, n)], Tally(c, Classify(st)))
      case Recorded(_, _) => s
  }

  function After(actions: seq<Action>): State {
    if actions == [] then State([], Counters(0, 0, 0, 0, 0, 0))
    else Next(After(actions[..|actions| - 1]), actions[|actions| - 1])
  }

  predicate CountedIn(o: Observer) { !o.Starting? }

  predicate Between(o: Observer) { o.Requested? || o.Timed? }

  function RecordedAs(class_: Class): Observer -> bool {
    (o: Observer) => o.Recorded? && Classify(o.status) == class_
  }

  function NanosIn(observers: seq<Observer>): int {
    if observers == [] then 0
    else
      var last := observers[|observers| - 1];
      NanosIn(observers[..|observers| - 1]) + (if last.Timed? || last.Recorded? then last.nanos else 0)
  }

  ghost predicate Agree(s: State) {
    var c := s.counters;
    && c.requests == HowMany(s.observers, CountedIn)
    && c.transport == HowMany(s.observers, RecordedAs(Transport))
    && c.success == HowMany(s.observers, RecordedAs(Success))
    && c.clientErrors == HowMany(s.observers, RecordedAs(ClientError))
    && c.serverErrors == HowMany(s.observers, RecordedAs(ServerError))
    && c.nanos == NanosIn(s.observers)
    && c.requests == c.success + c.clientErrors + c.serverErrors + c.transport + HowMany(s.observers, Between)
  }

  lemma {:induction false} NanosChanged(observers: seq<Observer>, i: nat, o: Observer)
    requires i < |observers|
    ensures NanosIn(observers[i := o]) == NanosIn(observers)
      - (if observers[i].Timed? || observers[i].Recorded? then observers[i].nanos else 0)
      + (if o.Timed? || o.Recorded? then o.nanos else 0)
  {
    var last := |observers| - 1;
    if i == last {
      assert observers[i := o][..last] == observers[..last];
    } else {
      assert observers[i := o][..last] == observers[..last][i := o];
      NanosChanged(observers[..last], i, o);
    }
  }

  lemma BeginKeeps(s: State, status: int, nanos: int)
    requires Agree(s)
    ensures Agree(Next(s, Begin(status, nanos)))
  {
    var o := Starting(status, nanos);
    assert (s.observers + [o])[..|s.observers|] == s.observers;
    hide HowMany;
    OneMore(s.observers, o, CountedIn);
    OneMore(s.observers, o, Between);
    OneMore(s.observers, o, RecordedAs(Transport));
    OneMore(s.observers, o, RecordedAs(Success));
    OneMore(s.observers, o, RecordedAs(ClientError));
    OneMore(s.observers, o, RecordedAs(ServerError));
  }

  lemma MoveKeeps(s: State, id: nat)
    requires Agree(s)
    ensures Agree(Next(s, Move(id)))
  {
    if id < |s.observers| {
      hide HowMany, NanosIn;
      var o := Next(s, Move(id)).observers[id];
      assert Next(s, Move(id)).observers == s.observers[id := o];
      NanosChanged(s.observers, id, o);
      OneChanged(s.observers, id, o, CountedIn);
      OneChanged(s.observers, id, o, Between);
      OneChanged(s.observers, id, o, RecordedAs(Transport));
      OneChanged(s.observers, id, o, RecordedAs(Success));
      OneChanged(s.observers, id, o, RecordedAs(ClientError));
      OneChanged(s.observers, id, o, RecordedAs(ServerError));
    }
  }

  /** After every single addition of every interleaving: requests are the four outcomes plus the
      observers between their first and last addition, each outcome counts exactly the calls with
      such a status, and the time is that of exactly the observers past their second addition. */
  lemma {:induction false} CountersAgree(actions: seq<Action>)
    ensures Agree(After(actions))
  {
    if actions == [] {
    } else {
      CountersAgree(actions[..|actions| - 1]);
      match actions[|actions| - 1]
      case Begin(status, nanos) => BeginKeeps(After(actions[..|actions| - 1]), status, nanos);
      case Move(id) => MoveKeeps(After(actions[..|actions| - 1]), id);
    }
  }

  // The calls observed so far, in the order in which their observers began.
  function Begun(actions: seq<Action>): seq<Action> {
    if actions == [] then []
    else
      var before, last := Begun(actions[..|actions| - 1]), actions[|actions| - 1];
      if last.Begin? then before + [last] else before
  }

  ghost predicate ObserversAgree(observers: seq<Observer>, calls: seq<Action>) {
    && |observers| == |calls|
    && forall i :: 0 <= i < |observers| ==> calls[i] == Begin(observers[i].status, observers[i].nanos)
  }

  /** Every observer keeps the status and the duration it began with. */
  lemma {:induction false} ObserversAreTheirCalls(actions: seq<Action>)
    ensures ObserversAgree(After(actions).observers, Begun(actions))
  {
    if actions != [] {
      ObserversAreTheirCalls(actions[..|actions| - 1]);
    }
  }

  // An outcome class by the range of its statuses.
  predicate StatusIn(status: int, class_: Class) {
    match class_
    case Transport => status == 0
    case Success => 200 <= status <= 299
    case ClientError => 400 <= status <= 499
    case ServerError => status != 0 && !(200 <= status <= 299) && !(400 <= status <= 499)
  }

  function RecordedIn(class_: Class): Observer -> bool {
    (o: Observer) => o.Recorded? && StatusIn(o.status, class_)
  }

  /** The four outcome counters are the finished calls without a response, with a status of 200 to
      299, of 400 to 499, and with any other. */
  lemma OutcomesByStatus(actions: seq<Action>)
    ensures var s := After(actions);
            && s.counters.transport == HowMany(s.observers, RecordedIn(Transport))
            && s.counters.success == HowMany(s.observers, RecordedIn(Success))
            && s.counters.clientErrors == HowMany(s.observers, RecordedIn(ClientError))
            && s.counters.serverErrors == HowMany(s.observers, RecordedIn(ServerError))
  {
    CountersAgree(actions);
    hide After, HowMany;
    var observers := After(actions).observers;
    forall class_: Class ensures HowMany(observers, RecordedIn(class_)) == HowMany(observers, RecordedAs(class_)) {
      Included(observers, RecordedIn(class_), RecordedAs(class_));
      Included(observers, RecordedAs(class_), RecordedIn(class_));
    }
  }

  // One observer running alone.
  class Telemetry {
    var counters: Counters

    constructor ()
      ensures counters == After([]).counters
    {
      counters := Counters(0, 0, 0, 0, 0, 0);
    }

    method ObserveUpstream(status: int, nanos: int)
      modifies this
      ensures State([Recorded(status, nanos)], counters)
           == Next(Next(Next(State([Starting(status, nanos)], old(counters)), Move(0)), Move(0)), Move(0))
      ensures counters.requests == old(counters.requests) + 1 && counters.nanos == old(counters.nanos) + nanos
    {
      counters := counters.(requests := counters.requests + 1);
      counters := counters.(nanos := counters.nanos + nanos);
      if status == 0 {
        counters := counters.(transport := counters.transport + 1);
      } else if status >= 200 && status < 300 {
        counters := counters.(success := counters.success + 1);
      } else if status >= 400 && status < 500 {
        counters := counters.(clientErrors := counters.clientErrors + 1);
      } else {
        counters := counters.(serverErrors := counters.serverErrors + 1);
      }
    }
  }
}
