/** When a packet is left waiting with both threads asleep: from which states, exactly, that can come about. */
module Stalls {
  import opened Pipeline
  import opened Rings
  import opened Sequences

  /** Both threads are blocked: nothing is being stored, and nothing was signalled. */
  predicate Asleep(s: State) {
    s.producer == Idle && s.consumer == Waiting && s.count == 0
  }

  /** Asleep, with a packet queued of a lidar that is sampling. */
  predicate Stalled(s: State, i: nat)
    requires i < |s.lidars|
  {
    Asleep(s) && s.lidars[i].sampling && !Empty(s, i)
  }

  /** A packet of the lidar is queued, or in the storing thread's hands. */
  predicate Holding(s: State, i: nat)
    requires i < |s.lidars|
  {
    !Empty(s, i) || ((s.producer.Checking? || Claims(s.producer)) && s.producer.i == i)
  }

  /** No packet arrives. */
  predicate NoStores(actions: seq<Action>) {
    forall j :: 0 <= j < |actions| ==> !actions[j].Store?
  }

  /** The draining thread is at a lidar only if that is sampling. */
  predicate Serves(s: State) {
    s.consumer != Waiting && !s.consumer.Visiting? ==> s.consumer.k < |s.lidars| && s.lidars[s.consumer.k].sampling
  }

  lemma NextServes(s: State, n: nat, size: nat, a: Action)
    requires Formed(s, n) && Serves(s)
    ensures Serves(Next(s, n, size, a))
  {
  }

  lemma {:induction false} ServesHolds(n: nat, size: nat, actions: seq<Action>, s: State)
    requires IsSize(size) && Reaches(n, size, actions, s)
    ensures Serves(s)
    decreases |actions|
  {
    if actions != [] {
      var last := |actions| - 1;
      var was :| Reaches(n, size, actions[..last], was) && Formed(was, n) && s == Next(was, n, size, actions[last]);
      ServesHolds(n, size, actions[..last], was);
      NextServes(was, n, size, actions[last]);
    }
  }

  // -------------------------------------------------- the storing thread ends

  /** How many steps the storing thread has left, at most. */
  function StepsLeft(p: Producer): nat {
    match p
    case Idle => 0
    case Signalling(_) => 1
    case Asking(_) => 2
    case Testing(_) => 3
    case Advancing(_, _) => 4
    case Copying(_, _) => 5
    case Filling(_, _) => 6
    case Checking(_, _) => 7
  }

  lemma ProduceProgresses(s: State, n: nat, size: nat, junk: Packet, i: nat)
    requires IsSize(size) && Invariant(s, n, size) && s.producer != Idle && i < n
    ensures var t := ProduceStep(s, n, junk);
      && StepsLeft(t.producer) < StepsLeft(s.producer)
      && i < |t.lidars| && t.lidars[i].sampling == s.lidars[i].sampling
      && (Holding(s, i) ==> Holding(t, i))
  {
    SizeDivides(size);
    assert Kept(s, i, size) && Kept(s, s.producer.i, size);
    if s.producer.Advancing? {
      UsedMoves(s.lidars[s.producer.i].ring);
    }
  }

  /** Left alone, the storing thread comes to rest; a packet it had in its hands is queued then. */
  lemma {:induction false} ProducerRests(n: nat, size: nat, actions: seq<Action>, s: State, i: nat, junk: Packet)
    returns (more: seq<Action>, t: State)
    requires IsSize(size) && Reaches(n, size, actions, s) && i < n && |s.lidars| == n
    ensures Reaches(n, size, actions + more, t) && NoStores(more) && t.producer == Idle
    ensures |t.lidars| == n && t.lidars[i].sampling == s.lidars[i].sampling && (Holding(s, i) ==> !Empty(t, i))
    decreases StepsLeft(s.producer)
  {
    if s.producer == Idle {
      more, t := [], s;
      assert actions + [] == actions;
    } else {
      InvariantHolds(n, size, actions, s);
      ProduceProgresses(s, n, size, junk, i);
      RunsContinue(n, size, actions, s, Produce(junk));
      var rest;
      rest, t := ProducerRests(n, size, actions + [Produce(junk)], Next(s, n, size, Produce(junk)), i, junk);
      more := [Produce(junk)] + rest;
      Joins3(actions, [Produce(junk)], rest);
    }
  }

  // ------------------------------------------------- the draining thread ends

  /** How many lidars are left on this round. */
  function RoundLeft(c: Consumer, n: nat): int {
    if c == Waiting then 0 else n - c.k + 1
  }

  /** How many packets are left at the lidar the round has come to. */
  function PacketsLeft(s: State): nat {
    if s.consumer != Waiting && s.consumer.k < |s.lidars| then Used(s.lidars[s.consumer.k].ring) else 0
  }

  /** The order in which the tests at one lidar come, which depends on whether its queue is empty. */
  function TestsLeft(c: Consumer, empty: bool): nat {
    match c
    case Waiting => 0
    case Visiting(_) => 6
    case Polling(_) => if empty then 1 else 5
    case Draining(_) => if empty then 2 else 4
    case Popping(_) => 3
    case Reading(_) => 2
    case Releasing(_, _) => 1
  }

  predicate Closer(s: State, t: State, n: nat) {
    || t.count < s.count
    || (t.count == s.count &&
        (|| RoundLeft(t.consumer, n) < RoundLeft(s.consumer, n)
         || (RoundLeft(t.consumer, n) == RoundLeft(s.consumer, n) &&
             (|| PacketsLeft(t) < PacketsLeft(s)
              || (PacketsLeft(t) == PacketsLeft(s) &&
                  TestsLeft(t.consumer, PacketsLeft(t) == 0) < TestsLeft(s.consumer, PacketsLeft(s) == 0))))))
  }

  lemma ConsumeProgresses(s: State, n: nat, size: nat, i: nat)
    requires IsSize(size) && Invariant(s, n, size) && Serves(s) && i < n
    requires s.consumer != Waiting || s.count > 0
    ensures var t := ConsumeStep(s, n);
      && Closer(s, t, n) && t.producer == s.producer
      && i < |t.lidars| && (!s.lidars[i].sampling ==> t.lidars[i] == s.lidars[i])
  {
    var c := s.consumer;
    if c != Waiting && c.k < n {
      assert Kept(s, c.k, size);
      if c.Releasing? {
        UsedMoves(s.lidars[c.k].ring);
      }
    }
  }

  /** Left alone, the draining thread blocks; it does not touch a lidar that is not sampling. */
  lemma {:induction false} ConsumerBlocks(n: nat, size: nat, actions: seq<Action>, s: State, i: nat)
    returns (more: seq<Action>, t: State)
    requires IsSize(size) && Reaches(n, size, actions, s) && Invariant(s, n, size) && s.producer == Idle && i < n
    requires !s.lidars[i].sampling
    ensures Reaches(n, size, actions + more, t) && NoStores(more) && Asleep(t)
    ensures |t.lidars| == n && t.lidars[i] == s.lidars[i]
    decreases s.count, RoundLeft(s.consumer, n), PacketsLeft(s), TestsLeft(s.consumer, PacketsLeft(s) == 0)
  {
    if Asleep(s) {
      more, t := [], s;
      assert actions + [] == actions;
    } else {
      ServesHolds(n, size, actions, s);
      ConsumeProgresses(s, n, size, i);
      RunsContinue(n, size, actions, s, Consume);
      var u := Next(s, n, size, Consume);
      InvariantHolds(n, size, actions + [Consume], u);
      var rest;
      rest, t := ConsumerBlocks(n, size, actions + [Consume], u, i);
      more := [Consume] + rest;
      Joins3(actions, [Consume], rest);
    }
  }

  // --------------------------------------------------------------- the result

  /** From any reachable state with a packet of a lidar that is not sampling yet, a stall can come about, no packet arriving. */
  lemma CanStall(n: nat, size: nat, actions: seq<Action>, s: State, i: nat) returns (more: seq<Action>, t: State)
    requires IsSize(size) && Reaches(n, size, actions, s) && i < n == |s.lidars|
    requires !s.lidars[i].sampling && Holding(s, i)
    ensures Reaches(n, size, actions + more, t) && NoStores(more) && |t.lidars| == n && Stalled(t, i)
  {
    var first, rested := ProducerRests(n, size, actions, s, i, Packet(0, []));
    InvariantHolds(n, size, actions + first, rested);
    var second, blocked := ConsumerBlocks(n, size, actions + first, rested, i);
    t := Connected(n, size, actions + first + second, blocked, i);
    more := first + second + [Connect(i)];
    Joins4(actions, first, second, [Connect(i)]);
    NoStoresIn(first, second, Connect(i));
  }

  lemma NoStoresIn(first: seq<Action>, second: seq<Action>, last: Action)
    requires NoStores(first) && NoStores(second) && !last.Store?
    ensures NoStores(first + second + [last])
  {
  }

  lemma Connected(n: nat, size: nat, actions: seq<Action>, s: State, i: nat) returns (t: State)
    requires IsSize(size) && Reaches(n, size, actions, s) && i < n == |s.lidars| && Asleep(s) && !Empty(s, i)
    ensures Reaches(n, size, actions + [Connect(i)], t) && |t.lidars| == n && Stalled(t, i)
  {
    RunsContinue(n, size, actions, s, Connect(i));
    t := Next(s, n, size, Connect(i));
  }

  /** Nothing in the queue and nothing in hand stays so while no packet arrives. */
  lemma NothingComes(s: State, n: nat, size: nat, a: Action, i: nat)
    requires IsSize(size) && Invariant(s, n, size) && i < n && !Holding(s, i) && !a.Store?
    ensures var t := Next(s, n, size, a); i < |t.lidars| && !Holding(t, i)
  {
    assert Kept(s, i, size);
  }

  lemma StaysEmptyOnce(n: nat, size: nat, actions: seq<Action>, s: State, last: Action, i: nat, t: State)
    requires IsSize(size) && Reaches(n, size, actions, s) && i < n == |s.lidars| && !Holding(s, i)
    requires !last.Store? && Formed(s, n) && t == Next(s, n, size, last)
    ensures |t.lidars| == n && !Holding(t, i)
  {
    InvariantHolds(n, size, actions, s);
    NothingComes(s, n, size, last, i);
  }

  lemma StaysAtOnce(n: nat, size: nat, actions: seq<Action>, s: State, i: nat, t: State)
    requires Reaches(n, size, actions, s) && i < n == |s.lidars| && !Holding(s, i) && Reaches(n, size, actions + [], t)
    ensures |t.lidars| == n && !Holding(t, i)
  {
    assert actions + [] == actions;
    OneState(n, size, actions, s, t);
  }

  lemma LastOf(more: seq<Action>) returns (before: seq<Action>, last: Action)
    requires more != [] && NoStores(more)
    ensures more == before + [last] && NoStores(before) && !last.Store? && |before| < |more|
  {
    before, last := more[..|more| - 1], more[|more| - 1];
  }

  lemma {:induction false} StaysEmpty(n: nat, size: nat, actions: seq<Action>, s: State, i: nat, more: seq<Action>, t: State)
    requires IsSize(size) && Reaches(n, size, actions, s) && i < n == |s.lidars| && !Holding(s, i)
    requires NoStores(more) && Reaches(n, size, actions + more, t)
    ensures |t.lidars| == n && !Holding(t, i)
    decreases |more|
  {
    if more == [] {
      StaysAtOnce(n, size, actions, s, i, t);
    } else {
      var before, last := LastOf(more);
      Joins3(actions, before, [last]);
      var was := StateBefore(n, size, actions + before, last, t);
      StaysEmpty(n, size, actions, s, i, before, was);
      StaysEmptyOnce(n, size, actions + before, was, last, i, t);
    }
  }

  lemma StateBefore(n: nat, size: nat, actions: seq<Action>, last: Action, t: State) returns (was: State)
    requires Reaches(n, size, actions + [last], t)
    ensures Reaches(n, size, actions, was) && Formed(was, n) && t == Next(was, n, size, last)
  {
    var all := actions + [last];
    assert all[..|all| - 1] == actions && all[|all| - 1] == last;
    was :| Reaches(n, size, all[..|all| - 1], was) && Formed(was, n) && t == Next(was, n, size, all[|all| - 1]);
  }

  ghost predicate MayStall(n: nat, size: nat, actions: seq<Action>, i: nat) {
    exists more, t :: Reaches(n, size, actions + more, t) && NoStores(more) && i < |t.lidars| && Stalled(t, i)
  }

  /**
   * A lidar that is not sampling yet can come to be stalled, without another packet arriving, exactly when
   * a packet of it is queued or in hand.
   */
  lemma StallsExactly(n: nat, size: nat, actions: seq<Action>, s: State, i: nat)
    requires IsSize(size) && Reaches(n, size, actions, s) && i < n == |s.lidars| && !s.lidars[i].sampling
    ensures Holding(s, i) <==> MayStall(n, size, actions, i)
  {
    if Holding(s, i) {
      var more, t := CanStall(n, size, actions, s, i);
    }
    if more, t :| Reaches(n, size, actions + more, t) && NoStores(more) && i < |t.lidars| && Stalled(t, i) {
      if !Holding(s, i) {
        StaysEmpty(n, size, actions, s, i, more, t);
      }
    }
  }

  /** In a system of any size, one packet that comes before its lidar is sampling is enough. */
  lemma UnwatchedMayWait(n: nat, size: nat, i: nat, p: Packet) returns (actions: seq<Action>, s: State)
    requires IsSize(size) && i < n
    ensures Reaches(n, size, actions, s) && |s.lidars| == n && Stalled(s, i)
    ensures exists rest :: actions == [Store(i, p)] + rest && NoStores(rest)
  {
    var store := Store(i, p);
    assert Reaches(n, size, [], Start(n));
    RunsContinue(n, size, [], Start(n), store);
    assert [] + [store] == [store];
    var stored := Next(Start(n), n, size, store);
    var rest;
    rest, s := CanStall(n, size, [store], stored, i);
    actions := [store] + rest;
  }

  /** While both threads are blocked, a packet is queued only of a lidar that was not sampling at its last packet. */
  lemma StalledIsUnwatched(n: nat, size: nat, actions: seq<Action>, s: State, i: nat)
    requires IsSize(size) && Reaches(n, size, actions, s) && i < n == |s.lidars| && Asleep(s) && !Empty(s, i)
    ensures |s.logs| == n && !s.logs[i].watched
  {
    NoLostWakeup(n, size, actions, s);
  }
}
