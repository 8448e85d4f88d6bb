// backup/msg_queue.cpp and backup_getmsg of backup/backup.cpp: a list under a
// lock, a semaphore that is drained only when the list becomes empty, and a
// consumer that peeks, asks for a larger buffer, and only then consumes.
module MsgQueues {
  import opened Prelude

  datatype Msg = Msg(num: int, para: seq<bv8>)

  function Front(queue: seq<Msg>): Option<Msg> {
    if queue == [] then None else Some(queue[0])
  }

  // One caller at a time.
  class MsgQueue {
    var queue: seq<Msg>
    var sem: nat

    // The semaphore counts every push since it was last drained.
    ghost predicate Valid()
      reads this
    {
      |queue| <= sem && (queue == [] ==> sem == 0)
    }

    constructor ()
      ensures Valid() && queue == []
    {
      queue, sem := [], 0;
    }

    method PushBack(m: Msg)
      requires Valid()
      modifies this
      ensures Valid() && queue == old(queue) + [m] && sem == old(sem) + 1
    {
      queue := queue + [m];
      sem := sem + 1;
    }

    // do { trywait } while (value > 0)
    method SetEmpty()
      modifies this`sem
      ensures sem == 0
    {
      var more := true;
      while more
        invariant !more ==> sem == 0
        decreases more, sem
      {
        if sem > 0 { sem := sem - 1; }
        more := sem > 0;
      }
    }

    // Removing from an empty list is undefined in the program.
    method PopFront() returns (m: Msg)
      requires Valid() && queue != []
      modifies this
      ensures Valid() && [m] + queue == old(queue)
      ensures sem == if queue == [] then 0 else old(sem)
    {
      m := queue[0];
      queue := queue[1..];
      if |queue| == 0 {
        SetEmpty();
      }
    }

    // The semaphore wait of a queue that holds a message; the wait of an empty
    // queue does not return. `room` is the size of the caller's buffer.
    method GetMsg(room: nat) returns (ret: int, num: int, para: seq<bv8>, length: nat)
      requires Valid() && sem > 0
      modifies this
      ensures Valid() && old(queue) != []
      ensures num == old(queue)[0].num && length == |old(queue)[0].para|
      ensures room < length ==> ret == -2 && queue == old(queue) && sem == old(sem)
      ensures room >= length ==> ret == 0 && para == old(queue)[0].para && queue == old(queue)[1..]
      ensures room >= length ==> sem == if queue == [] then 0 else old(sem)
    {
      sem := sem - 1;  // sem_wait
      sem := sem + 1;  // sem_post
      var tmp := Front(queue).value;
      num, para := tmp.num, [];
      length := |tmp.para|;
      if room < length {
        return -2, num, para, length;
      }
      var _ := PopFront();
      return 0, num, tmp.para, length;
    }

    // The body of the consumer loop: starts with no buffer and enlarges it as
    // told. One message leaves the queue, after at most one repetition.
    method Dispose() returns (m: Msg, ghost calls: nat)
      requires Valid() && sem > 0
      modifies this
      ensures Valid() && [m] + queue == old(queue)
      ensures sem == if queue == [] then 0 else old(sem)
      ensures calls == if |m.para| > 0 then 2 else 1
    {
      calls := 1;
      var ret, num, para, size := GetMsg(0);
      while ret == -2
        invariant Valid() && (ret == -2 || ret == 0)
        invariant ret == -2 ==> queue == old(queue) && sem == old(sem) && calls == 1
        invariant ret == -2 ==> queue != [] && size == |queue[0].para| > 0
        invariant ret == 0 ==> sem == if queue == [] then 0 else old(sem)
        invariant ret == 0 ==> [Msg(num, para)] + queue == old(queue) && calls == if |para| > 0 then 2 else 1
        decreases ret == -2
      {
        ret, num, para, size := GetMsg(size);
        calls := calls + 1;
      }
      m := Msg(num, para);
    }
  }
}

// The same operations cut at every point where another thread may come in: any
// number of producers, one consumer.
module MsgQueueSteps {
  import opened MsgQueues
  import opened Prelude

  // Where the consumer is. `room` is the size of its buffer.
  datatype Consumer =
    | Waiting(room: nat)                      // before sem_wait
    | HoldsToken(room: nat)                   // between sem_wait and sem_post
    | Awake(room: nat)                        // before front
    | Looking(room: nat, seen: Option<Msg>)   // front has answered
    | Popping(m: Msg)                         // before pop_front
    | Draining(m: Msg)                        // inside set_empty, holding the lock
    | Copying(m: Msg)                         // before the payload is handed over

  // `pushing`: a producer holds the lock between its list insertion and its
  // sem_post. `posted` and `delivered` are histories; `retries` counts the
  // answers -2 since the last delivery.
  datatype State = State(
    queue: seq<Msg>,
    sem: nat,
    pushing: bool,
    consumer: Consumer,
    posted: seq<Msg>,
    delivered: seq<Msg>,
    retries: nat)

  datatype Action =
    | Push(m: Msg) | Post
    | Wait | Repost | Look | Decide | Pop | Drain | Deliver

  const START := State([], 0, false, Waiting(0), [], [], 0)

  predicate LockFree(s: State) { !s.pushing && !s.consumer.Draining? }

  predicate Enabled(s: State, a: Action) {
    match a
    case Push(_) => LockFree(s)
    case Post => s.pushing
    case Wait => s.consumer.Waiting? && s.sem > 0
    case Repost => s.consumer.HoldsToken?
    case Look => s.consumer.Awake? && LockFree(s)
    case Decide => s.consumer.Looking? && s.consumer.seen.Some?
    case Pop => s.consumer.Popping? && LockFree(s) && s.queue != []
    case Drain => s.consumer.Draining?
    case Deliver => s.consumer.Copying?
  }

  function Step(s: State, a: Action): State
    requires Enabled(s, a)
  {
    match a
    case Push(m) => s.(queue := s.queue + [m], posted := s.posted + [m], pushing := true)
    case Post => s.(sem := s.sem + 1, pushing := false)
    case Wait => s.(sem := s.sem - 1, consumer := HoldsToken(s.consumer.room))
    case Repost => s.(sem := s.sem + 1, consumer := Awake(s.consumer.room))
    case Look => s.(consumer := Looking(s.consumer.room, Front(s.queue)))
    case Decide =>
      var m := s.consumer.seen.value;
      if s.consumer.room < |m.para|
      then s.(consumer := Waiting(|m.para|), retries := s.retries + 1)
      else s.(consumer := Popping(m))
    case Pop =>
      var rest := s.queue[1..];
      s.(queue := rest, consumer := if rest == [] then Draining(s.consumer.m) else Copying(s.consumer.m))
    case Drain =>
      var left := if s.sem > 0 then s.sem - 1 else 0;
      s.(sem := left, consumer := if left > 0 then s.consumer else Copying(s.consumer.m))
    case Deliver =>
      s.(delivered := s.delivered + [s.consumer.m], retries := 0, consumer := Waiting(0))
  }

  function Run(s: State, actions: seq<Action>): State
    decreases |actions|
  {
    if actions == [] then s
    else Run(if Enabled(s, actions[0]) then Step(s, actions[0]) else s, actions[1..])
  }

  function Token(s: State): nat { if s.consumer.HoldsToken? then 1 else 0 }

  function InHand(s: State): seq<Msg> {
    if s.consumer.Draining? || s.consumer.Copying? then [s.consumer.m] else []
  }

  // The semaphore, the token and a push in progress cover the queue; an empty
  // queue has neither count nor token, except while it is being drained.
  ghost predicate Covered(s: State) {
    && s.sem + Token(s) + (if s.pushing then 1 else 0) >= |s.queue|
    && (s.queue == [] && !s.consumer.Draining? ==> s.sem == 0 && Token(s) == 0 && !s.pushing)
    && (s.consumer.Draining? ==> s.queue == [] && !s.pushing)
  }

  // From the wake-up until the pop the front is there and does not change.
  ghost predicate FrontKept(s: State) {
    match s.consumer
    case HoldsToken(_) => s.queue != []
    case Awake(_) => s.queue != []
    case Looking(_, seen) => s.queue != [] && seen == Some(s.queue[0])
    case Popping(m) => s.queue != [] && m == s.queue[0]
    case _ => true
  }

  // After one retry the buffer fits the front message.
  ghost predicate RoomKept(s: State) {
    && s.retries <= 1
    && (s.retries == 1 && InHand(s) == [] && !s.consumer.Popping? ==>
          s.queue != [] && s.consumer.room >= |s.queue[0].para|)
  }

  ghost predicate Inv(s: State) {
    && Covered(s) && FrontKept(s) && RoomKept(s)
    && s.posted == s.delivered + InHand(s) + s.queue
  }

  lemma StepKeepsInv(s: State, a: Action)
    requires Inv(s) && Enabled(s, a)
    ensures Inv(Step(s, a))
  {
    var s' := Step(s, a);
    if a.Push? {
      assert s'.posted == s.delivered + InHand(s) + (s.queue + [a.m]);
    } else if a.Pop? {
      assert s.queue == [s.consumer.m] + s.queue[1..];
    }
  }

  lemma {:induction false} RunKeepsInv(s: State, actions: seq<Action>)
    requires Inv(s)
    ensures Inv(Run(s, actions))
    decreases |actions|
  {
    if actions != [] {
      if Enabled(s, actions[0]) { StepKeepsInv(s, actions[0]); }
      RunKeepsInv(if Enabled(s, actions[0]) then Step(s, actions[0]) else s, actions[1..]);
    }
  }

  // In every interleaving: front never answers null, a pop never meets an empty
  // list, -2 is answered at most once per message, and what was delivered is
  // a prefix of what was posted, payload included.
  lemma ConsumerIsSafe(actions: seq<Action>)
    ensures var s := Run(START, actions);
      && (s.consumer.Looking? ==> s.consumer.seen.Some?)
      && (s.consumer.Popping? ==> s.queue != [])
      && s.retries <= 1
      && s.delivered <= s.posted
      && (s.consumer.Waiting? && s.queue == [] ==> s.delivered == s.posted)
  {
    RunKeepsInv(START, actions);
    var s := Run(START, actions);
    assert s.posted == s.delivered + (InHand(s) + s.queue);
  }

  // No wake-up is lost: with a message in the queue and no push in progress, a
  // waiting consumer can go on.
  lemma NoLostWakeup(actions: seq<Action>)
    ensures var s := Run(START, actions);
      s.queue != [] && !s.pushing && s.consumer.Waiting? ==> Enabled(s, Wait)
  {
    RunKeepsInv(START, actions);
  }

  // While the consumer drains, nobody else can move the semaphore.
  lemma DrainIsAlone(actions: seq<Action>, a: Action)
    ensures var s := Run(START, actions);
      s.consumer.Draining? && Enabled(s, a) ==> a == Drain
  {
    RunKeepsInv(START, actions);
  }

  // The consumer's next action, when no push is in progress.
  function Next(c: Consumer): Action {
    match c
    case Waiting(_) => Wait
    case HoldsToken(_) => Repost
    case Awake(_) => Look
    case Looking(_, _) => Decide
    case Popping(_) => Pop
    case Draining(_) => Drain
    case Copying(_) => Deliver
  }

  function Rank(c: Consumer): nat {
    match c
    case Waiting(_) => 6
    case HoldsToken(_) => 5
    case Awake(_) => 4
    case Looking(_, _) => 3
    case Popping(_) => 2
    case Draining(_) => 1
    case Copying(_) => 0
  }

  // Left alone, with no push in progress, the consumer empties the queue.
  lemma {:induction false} ConsumerEmptiesQueue(s: State)
    returns (rest: seq<Action>)
    requires Inv(s) && !s.pushing
    ensures Run(s, rest).delivered == s.posted && Run(s, rest).queue == []
    ensures forall i :: 0 <= i < |rest| ==> !rest[i].Push?
    decreases |s.queue| + |InHand(s)|, 1 - s.retries, Rank(s.consumer), s.sem
  {
    if s.queue == [] && InHand(s) == [] {
      rest := [];
    } else {
      var a := Next(s.consumer);
      assert Enabled(s, a);
      StepKeepsInv(s, a);
      var rest' := ConsumerEmptiesQueue(Step(s, a));
      rest := [a] + rest';
      assert rest[1..] == rest';
    }
  }

  // From every reachable state: once a push in progress is over and no other begins,
  // the consumer empties the queue. Every posted message is delivered, once and in
  // posting order, and the drain loop ends.
  lemma ConsumerDeliversAll(actions: seq<Action>) returns (rest: seq<Action>)
    ensures var s, q := Run(START, actions), Run(Run(START, actions), rest);
      q.delivered == s.posted && q.posted == s.posted && q.queue == []
    ensures Run(START, actions).pushing ==> rest != [] && rest[0] == Post
    ensures forall i :: 0 <= i < |rest| ==> !rest[i].Push?
  {
    RunKeepsInv(START, actions);
    var s := Run(START, actions);
    if s.pushing {
      StepKeepsInv(s, Post);
      var more := ConsumerEmptiesQueue(Step(s, Post));
      rest := [Post] + more;
      assert rest[1..] == more;
    } else {
      rest := ConsumerEmptiesQueue(s);
    }
    NoPushKeepsPosted(s, rest);
  }

  lemma {:induction false} NoPushKeepsPosted(s: State, actions: seq<Action>)
    requires forall i :: 0 <= i < |actions| ==> !actions[i].Push?
    ensures Run(s, actions).posted == s.posted
    decreases |actions|
  {
    if actions != [] {
      NoPushKeepsPosted(if Enabled(s, actions[0]) then Step(s, actions[0]) else s, actions[1..]);
    }
  }
}
