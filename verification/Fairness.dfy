/** How long a live VM can wait for its turn, under each policy. */
module Fairness {
  import opened Words
  import opened Machine
  import opened Schedulers

  /** One status vector can follow another in a run: terminal statuses stay terminal. */
  ghost predicate Follows(before: seq<VmStatus>, after: seq<VmStatus>) {
    && |after| == |before|
    && forall i | 0 <= i < |before| && Terminal(before[i]) :: Terminal(after[i])
  }

  // ---------------------------------------------------------------------------------------
  // Queues
  // ---------------------------------------------------------------------------------------

  /** The position of i in a queue that holds it. */
  function Position(q: seq<nat>, i: nat): (k: nat)
    requires i in q
    ensures k < |q| && q[k] == i
  {
    if q[0] == i then 0 else 1 + Position(q[1..], i)
  }

  lemma {:induction false} PositionInPrefix(q: seq<nat>, i: nat, last: nat)
    requires i in q
    ensures Position(q + [last], i) == Position(q, i)
  {
    if q[0] != i {
      assert (q + [last])[1..] == q[1..] + [last];
      PositionInPrefix(q[1..], i, last);
    }
  }

  /** Dropping dead VMs keeps every live VM, and moves it forward by what was dropped. */
  lemma {:induction false} DropDeadKeepsLive(q: seq<nat>, statuses: seq<VmStatus>, i: nat)
    requires Live(statuses, i)
    ensures multiset(DropDead(q, statuses))[i] == multiset(q)[i]
    ensures |DropDead(q, statuses)| <= |q|
    ensures i in q ==> && i in DropDead(q, statuses)
                       && Position(DropDead(q, statuses), i) + |q| == Position(q, i) + |DropDead(q, statuses)|
  {
    if q != [] && !Live(statuses, q[0]) {
      assert q == [q[0]] + q[1..];
      DropDeadKeepsLive(q[1..], statuses, i);
    }
  }

  lemma {:induction false} DropDeadOnlyDrops(q: seq<nat>, statuses: seq<VmStatus>)
    ensures multiset(DropDead(q, statuses)) <= multiset(q)
    ensures DropDead(q, statuses) != [] ==> Live(statuses, DropDead(q, statuses)[0])
  {
    if q != [] && !Live(statuses, q[0]) {
      assert q == [q[0]] + q[1..];
      DropDeadOnlyDrops(q[1..], statuses);
    }
  }

  /** Everything the three queues hold, with multiplicities. */
  ghost function Held(p: Policy): multiset<nat>
    requires p.Mlfq?
  {
    multiset(p.high) + multiset(p.mid) + multiset(p.low)
  }

  /** No VM is queued twice, no index is out of range, and no live VM has been lost. */
  ghost predicate QueuesSound(p: Policy, statuses: seq<VmStatus>)
    requires p.Mlfq?
  {
    && (forall i: nat | i in Held(p) :: i < |statuses| && Held(p)[i] == 1)
    && (forall i: nat | Live(statuses, i) :: i in Held(p))
  }

  ghost predicate PolicySound(p: Policy, statuses: seq<VmStatus>) {
    match p
    case RoundRobin(cursor) => cursor < |statuses| || cursor == 0
    case Priority => true
    case Mlfq(initialized, _, _, _) => initialized ==> QueuesSound(p, statuses)
  }

  lemma {:induction false} FullQueueHolds(n: nat)
    ensures forall i: nat :: multiset(FullQueue(n))[i] == if i < n then 1 else 0
  {
    if n > 0 {
      FullQueueHolds(n - 1);
      assert FullQueue(n) == FullQueue(n - 1) + [n - 1];
    } else {
      assert FullQueue(0) == [];
    }
  }

  lemma StartedIsSound(p: Policy, statuses: seq<VmStatus>)
    requires p.Mlfq? && PolicySound(p, statuses)
    ensures QueuesSound(Started(p, |statuses|), statuses)
  {
    FullQueueHolds(|statuses|);
  }

  lemma DrainedIsSound(p: Policy, statuses: seq<VmStatus>)
    requires p.Mlfq? && QueuesSound(p, statuses)
    ensures QueuesSound(Drained(p, statuses), statuses)
  {
    DropDeadOnlyDrops(p.high, statuses);
    DropDeadOnlyDrops(p.mid, statuses);
    DropDeadOnlyDrops(p.low, statuses);
    forall i: nat | Live(statuses, i)
      ensures i in Held(Drained(p, statuses))
    {
      DropDeadKeepsLive(p.high, statuses, i);
      DropDeadKeepsLive(p.mid, statuses, i);
      DropDeadKeepsLive(p.low, statuses, i);
    }
    forall i: nat | i in Held(Drained(p, statuses))
      ensures i < |statuses| && Held(Drained(p, statuses))[i] == 1
    {
      assert Held(Drained(p, statuses)) <= Held(p);
      assert i in Held(p);
    }
  }

  /** Once drained, a queue that holds anything starts with a live VM. */
  lemma DrainedHeadIsLive(p: Policy, statuses: seq<VmStatus>)
    requires p.Mlfq?
    ensures var d := Drained(p, statuses);
            && (d.high != [] ==> Live(statuses, d.high[0]))
            && (d.high == [] && d.mid != [] ==> Live(statuses, d.mid[0]))
            && (d.high == [] && d.mid == [] && d.low != [] ==> Live(statuses, d.low[0]))
  {
    DropDeadOnlyDrops(p.high, statuses);
    DropDeadOnlyDrops(p.mid, statuses);
    DropDeadOnlyDrops(p.low, statuses);
  }

  /** A rotation moves one VM and loses none. */
  lemma RotateHolds(d: Policy, n: nat)
    requires d.Mlfq? && Held(d) != multiset{}
    ensures Rotate(d, n).next.Mlfq? && Rotate(d, n).next.initialized == d.initialized
    ensures Held(Rotate(d, n).next) == Held(d)
  {
    if d.high != [] {
      HeadAndTail(d.high);
      MoveToMiddle(multiset{d.high[0]}, multiset(d.high[1..]), multiset(d.mid), multiset(d.low));
    } else if d.mid != [] {
      HeadAndTail(d.mid);
      MoveToLast(multiset{d.mid[0]}, multiset(d.high), multiset(d.mid[1..]), multiset(d.low));
    } else {
      HeadAndTail(d.low);
      assert multiset(d.high) == multiset{} && multiset(d.mid) == multiset{};
      assert multiset([d.low[0]]) == multiset{d.low[0]};
    }
  }

  lemma HeadAndTail(q: seq<nat>)
    requires q != []
    ensures multiset(q) == multiset{q[0]} + multiset(q[1..])
  {
    assert q == [q[0]] + q[1..];
  }

  lemma MoveToMiddle(x: multiset<nat>, a: multiset<nat>, b: multiset<nat>, c: multiset<nat>)
    ensures a + (b + x) + c == (x + a) + b + c
  {
  }

  lemma MoveToLast(x: multiset<nat>, a: multiset<nat>, b: multiset<nat>, c: multiset<nat>)
    ensures a + b + (c + x) == a + (x + b) + c
  {
  }

  // ---------------------------------------------------------------------------------------
  // Ranks
  // ---------------------------------------------------------------------------------------

  /** How many picks can still come before i's. */
  ghost function MlfqRank(p: Policy, i: nat): nat
    requires p.Mlfq?
  {
    if i in p.high then Position(p.high, i)
    else if i in p.mid then |p.high| + Position(p.mid, i)
    else if i in p.low then 2 * |p.high| + |p.mid| + 3 * Position(p.low, i)
    else 0
  }

  /** The cyclic distance from the cursor to i. */
  function CursorDistance(cursor: nat, i: nat, n: nat): int {
    if i >= cursor then i - cursor else i + n - cursor
  }

  ghost function Rank(p: Policy, i: nat, n: nat): int {
    match p
    case RoundRobin(cursor) => CursorDistance(cursor, i, n)
    case Priority => 0
    case Mlfq(_, _, _, _) => MlfqRank(Started(p, n), i)
  }

  /** The policies that let no live VM starve. */
  predicate Fair(p: Policy) {
    !p.Priority?
  }

  /** The largest rank a live VM can have among n. */
  function MaxWait(p: Policy, n: nat): nat
    requires n > 0
  {
    if p.Mlfq? then 3 * (n - 1) else n - 1
  }

  ghost predicate InOneLevel(l: Policy, i: nat)
    requires l.Mlfq?
  {
    (if i in l.high then 1 else 0) + (if i in l.mid then 1 else 0) + (if i in l.low then 1 else 0) == 1
  }

  /** In a sound state a VM that is queued is in one queue only. */
  lemma QueuedOnce(p: Policy, statuses: seq<VmStatus>, i: nat)
    requires p.Mlfq? && QueuesSound(p, statuses) && i in Held(p)
    ensures InOneLevel(p, i)
  {
    assert Held(p)[i] == 1;
  }

  /** Draining never raises the rank of a live VM. */
  lemma DrainLowersRank(p: Policy, statuses: seq<VmStatus>, i: nat)
    requires p.Mlfq? && QueuesSound(p, statuses) && Live(statuses, i)
    ensures MlfqRank(Drained(p, statuses), i) <= MlfqRank(p, i)
  {
    DropDeadKeepsLive(p.high, statuses, i);
    DropDeadKeepsLive(p.mid, statuses, i);
    DropDeadKeepsLive(p.low, statuses, i);
    DrainedIsSound(p, statuses);
    QueuedOnce(p, statuses, i);
    QueuedOnce(Drained(p, statuses), statuses, i);
  }

  lemma PositionAfterPop(q: seq<nat>, i: nat)
    requires i in q && q[0] != i
    ensures i in q[1..] && Position(q[1..], i) == Position(q, i) - 1
  {
  }

  /** Rotating another VM lowers the rank of every queued one. */
  lemma RotateLowersRank(d: Policy, statuses: seq<VmStatus>, i: nat, n: nat)
    requires d.Mlfq? && QueuesSound(d, statuses) && i in Held(d)
    requires Rotate(d, n).index != i
    ensures Rotate(d, n).next.Mlfq? && MlfqRank(Rotate(d, n).next, i) < MlfqRank(d, i)
  {
    QueuedOnce(d, statuses, i);
    if d.high != [] {
      RotateHighLowersRank(d, i, n);
    } else if d.mid != [] {
      if i in d.mid {
        PositionAfterPop(d.mid, i);
      } else {
        PositionInPrefix(d.low, i, d.mid[0]);
        assert i !in d.mid[1..];
      }
    } else {
      PositionAfterPop(d.low, i);
    }
  }

  lemma RotateHighLowersRank(d: Policy, i: nat, n: nat)
    requires d.Mlfq? && d.high != [] && d.high[0] != i
    requires InOneLevel(d, i)
    ensures MlfqRank(Rotate(d, n).next, i) < MlfqRank(d, i)
  {
    if i in d.high {
      PositionAfterPop(d.high, i);
    } else {
      assert i !in d.high[1..];
      if i in d.mid {
        PositionInPrefix(d.mid, i, d.high[0]);
      } else {
        assert i !in d.mid + [d.high[0]];
      }
    }
  }

  /** Distinct indices below n number at most n. */
  lemma {:induction false} Pigeonhole(m: multiset<nat>, n: nat)
    requires forall i: nat | i in m :: i < n && m[i] == 1
    ensures |m| <= n
  {
    if n == 0 {
      assert m == multiset{};
    } else {
      var rest := m[n - 1 := 0];
      Pigeonhole(rest, n - 1);
      assert m == rest || m == rest + multiset{n - 1};
    }
  }

  lemma MlfqRankBounded(p: Policy, statuses: seq<VmStatus>, i: nat)
    requires p.Mlfq? && QueuesSound(p, statuses) && Live(statuses, i)
    ensures MlfqRank(p, i) <= 3 * (|statuses| - 1)
  {
    Pigeonhole(Held(p), |statuses|);
    assert |Held(p)| == |p.high| + |p.mid| + |p.low|;
    QueuedOnce(p, statuses, i);
  }

  /** The scan stops at the first live index of the cyclic order. */
  lemma {:induction false} ScanIsFirst(statuses: seq<VmStatus>, cursor: nat, tried: nat, i: nat)
    requires cursor < |statuses| && Live(statuses, i)
    requires tried <= CursorDistance(cursor, i, |statuses|)
    ensures var n := |statuses|;
            var r := Scan(statuses, cursor, tried);
            && r.Some? && Live(statuses, r.value)
            && tried <= CursorDistance(cursor, r.value, n) <= CursorDistance(cursor, i, n)
    decreases |statuses| - tried
  {
    var n := |statuses|;
    var candidate := (cursor + tried) % n;
    assert candidate == if cursor + tried < n then cursor + tried else cursor + tried - n by {
      ModOnce(cursor + tried, n);
    }
    if !Live(statuses, candidate) {
      ScanIsFirst(statuses, cursor, tried + 1, i);
    }
  }

  lemma ModOnce(x: nat, n: nat)
    requires 0 < n && x < 2 * n
    ensures x % n == if x < n then x else x - n
  {
    var q := x / n;
    assert x == n * q + x % n;
    if q >= 2 {
      MulMonotone(2, q, n);
    } else if q == 1 {
      MulMonotone(1, q, n);
    }
  }

  lemma RoundRobinFairPick(cursor: nat, statuses: seq<VmStatus>, i: nat)
    requires cursor < |statuses| && Live(statuses, i)
    ensures var n := |statuses|;
            var c := RoundRobinPick(cursor, statuses);
            && Live(statuses, c.index) && c.next.RoundRobin? && c.next.cursor < n
            && 0 <= CursorDistance(cursor, i, n) <= n - 1
            && (c.index != i ==> CursorDistance(c.next.cursor, i, n) < CursorDistance(cursor, i, n))
  {
    ScanIsFirst(statuses, cursor, 0, i);
    ModOnce(RoundRobinPick(cursor, statuses).index + 1, |statuses|);
  }

  lemma MlfqFairPick(s: Policy, statuses: seq<VmStatus>, i: nat)
    requires s.Mlfq? && s.initialized && QueuesSound(s, statuses) && Live(statuses, i)
    ensures var c := MlfqPick(s, statuses);
            && Live(statuses, c.index) && c.next.Mlfq? && c.next.initialized && QueuesSound(c.next, statuses)
            && MlfqRank(s, i) <= 3 * (|statuses| - 1)
            && (c.index != i ==> MlfqRank(c.next, i) < MlfqRank(s, i))
  {
    var n := |statuses|;
    var d := Drained(s, statuses);
    DrainedIsSound(s, statuses);
    DrainedHeadIsLive(s, statuses);
    assert i in Held(d);
    RotateHolds(d, n);
    MlfqRankBounded(s, statuses, i);
    DrainLowersRank(s, statuses, i);
    if Rotate(d, n).index != i {
      RotateLowersRank(d, statuses, i, n);
    }
  }

  /** Every pick of a fair policy is live, keeps the policy sound, and brings every other live VM
      strictly closer to its own pick. */
  lemma FairPick(p: Policy, statuses: seq<VmStatus>, priorities: seq<int32>, i: nat)
    requires Fair(p) && PolicySound(p, statuses) && Live(statuses, i)
    ensures var n := |statuses|;
            var c := Pick(p, statuses, priorities);
            && Live(statuses, c.index)
            && Fair(c.next) && PolicySound(c.next, statuses)
            && MaxWait(c.next, n) == MaxWait(p, n)
            && 0 <= Rank(p, i, n) <= MaxWait(p, n)
            && (c.index != i ==> Rank(c.next, i, n) < Rank(p, i, n))
  {
    match p {
      case RoundRobin(cursor) =>
        RoundRobinFairPick(cursor, statuses, i);
      case Mlfq(_, _, _, _) =>
        StartedIsSound(p, statuses);
        MlfqFairPick(Started(p, |statuses|), statuses, i);
    }
  }

  /** A sound policy state stays sound when more VMs finish. */
  lemma SoundnessFollows(p: Policy, before: seq<VmStatus>, after: seq<VmStatus>)
    requires PolicySound(p, before) && Follows(before, after)
    ensures PolicySound(p, after)
  {
    assert forall i: nat | Live(after, i) :: Live(before, i);
  }

  // ---------------------------------------------------------------------------------------
  // Lazy removal of dead VMs refines eager removal
  // ---------------------------------------------------------------------------------------

  /** The live VMs of a queue, in order. */
  function LiveOnly(q: seq<nat>, statuses: seq<VmStatus>): seq<nat> {
    if q == [] then []
    else (if Live(statuses, q[0]) then [q[0]] else []) + LiveOnly(q[1..], statuses)
  }

  lemma {:induction false} LiveOnlyDropped(q: seq<nat>, statuses: seq<VmStatus>)
    ensures LiveOnly(DropDead(q, statuses), statuses) == LiveOnly(q, statuses)
    ensures DropDead(q, statuses) == [] <==> LiveOnly(q, statuses) == []
    ensures DropDead(q, statuses) != [] ==>
              DropDead(q, statuses)[0] == LiveOnly(q, statuses)[0]
              && LiveOnly(DropDead(q, statuses)[1..], statuses) == LiveOnly(q, statuses)[1..]
  {
    if q != [] && !Live(statuses, q[0]) {
      LiveOnlyDropped(q[1..], statuses);
    }
  }

  lemma {:induction false} LiveOnlyAppend(q: seq<nat>, statuses: seq<VmStatus>, last: nat)
    ensures LiveOnly(q + [last], statuses) == LiveOnly(q, statuses) + if Live(statuses, last) then [last] else []
  {
    if q != [] {
      assert (q + [last])[1..] == q[1..] + [last];
      LiveOnlyAppend(q[1..], statuses, last);
    } else {
      assert [] + [last] == [last];
    }
  }

  /** Seen without dead VMs, a pick takes the head of the first level that is not empty to the end of the
      next level, high to mid, mid to low and low back to high, and changes no other order. With no live
      VM queued it starts over with every VM in the high level. */
  lemma MlfqLevels(p: Policy, statuses: seq<VmStatus>)
    requires p.Mlfq? && p.initialized
    ensures var c := MlfqPick(p, statuses);
            var high, mid, low :=
              LiveOnly(p.high, statuses), LiveOnly(p.mid, statuses), LiveOnly(p.low, statuses);
            && c.next.Mlfq? && c.next.initialized
            && var high', mid', low' :=
                 LiveOnly(c.next.high, statuses), LiveOnly(c.next.mid, statuses), LiveOnly(c.next.low, statuses);
               if high != [] then
                 c.index == high[0] && high' == high[1..] && mid' == mid + [c.index] && low' == low
               else if mid != [] then
                 c.index == mid[0] && high' == [] && mid' == mid[1..] && low' == low + [c.index]
               else if low != [] then
                 c.index == low[0] && high' == [c.index] && mid' == [] && low' == low[1..]
               else
                 c == Choice(0, Mlfq(true, FullQueue(|statuses|), [], []))
  {
    LiveOnlyDropped(p.high, statuses);
    LiveOnlyDropped(p.mid, statuses);
    LiveOnlyDropped(p.low, statuses);
    DropDeadOnlyDrops(p.high, statuses);
    DropDeadOnlyDrops(p.mid, statuses);
    DropDeadOnlyDrops(p.low, statuses);
    var index := MlfqPick(p, statuses).index;
    LiveOnlyAppend(p.mid, statuses, index);
    LiveOnlyAppend(p.low, statuses, index);
    LiveOnlyAppend([], statuses, index);
    assert [] + [index] == [index];
  }

  lemma {:induction false} ScanFindsNone(statuses: seq<VmStatus>, cursor: nat, tried: nat)
    requires forall j: nat :: !Live(statuses, j)
    ensures Scan(statuses, cursor, tried) == None
    decreases |statuses| - tried
  {
    if tried < |statuses| {
      ScanFindsNone(statuses, cursor, tried + 1);
    }
  }

  /** With no live VM every policy answers 0: round robin keeps its cursor, and the feedback queues start
      over with every VM in the high queue. */
  lemma NoLiveVm(p: Policy, statuses: seq<VmStatus>, priorities: seq<int32>)
    requires forall j: nat :: !Live(statuses, j)
    ensures var c := Pick(p, statuses, priorities);
            && c.index == 0
            && (p.Mlfq? ==> c.next == Mlfq(true, FullQueue(|statuses|), [], []))
            && (!p.Mlfq? ==> c.next == p)
  {
    match p {
      case RoundRobin(cursor) => ScanFindsNone(statuses, cursor, 0);
      case Priority => BestIsFirst(statuses, priorities, |statuses|);
      case Mlfq(_, _, _, _) =>
        var s := Started(p, |statuses|);
        DropDeadOnlyDrops(s.high, statuses);
        DropDeadOnlyDrops(s.mid, statuses);
        DropDeadOnlyDrops(s.low, statuses);
    }
  }

  // ---------------------------------------------------------------------------------------
  // Bounded waiting
  // ---------------------------------------------------------------------------------------

  /** The indices returned by one PickNext call per status vector. */
  function Picks(p: Policy, history: seq<seq<VmStatus>>, priorities: seq<int32>): (picks: seq<nat>)
    ensures |picks| == |history|
    decreases |history|
  {
    if history == [] then []
    else
      var c := Pick(p, history[0], priorities);
      [c.index] + Picks(c.next, history[1..], priorities)
  }

  /** A run of the hypervisor as the scheduler sees it. */
  ghost predicate IsRun(history: seq<seq<VmStatus>>) {
    forall t | 0 < t < |history| :: Follows(history[t - 1], history[t])
  }

  ghost predicate LiveThroughout(history: seq<seq<VmStatus>>, i: nat) {
    forall t | 0 <= t < |history| :: Live(history[t], i)
  }

  lemma {:induction false} PickedWithinRank(p: Policy, history: seq<seq<VmStatus>>, priorities: seq<int32>, i: nat)
    requires history != [] && IsRun(history) && LiveThroughout(history, i)
    requires Fair(p) && PolicySound(p, history[0])
    requires Rank(p, i, |history[0]|) < |history|
    ensures i in Picks(p, history, priorities)
    decreases |history|
  {
    hide Pick, Rank, MaxWait, PolicySound;
    var c := Pick(p, history[0], priorities);
    FairPick(p, history[0], priorities, i);
    if c.index != i {
      var rest := history[1..];
      FairPick(c.next, history[0], priorities, i);
      assert Follows(history[0], history[1]);
      SoundnessFollows(c.next, history[0], history[1]);
      assert forall t | 0 < t < |rest| :: rest[t - 1] == history[t] && rest[t] == history[t + 1];
      assert forall t | 0 < t < |rest| :: Follows(rest[t - 1], rest[t]);
      PickedWithinRank(c.next, rest, priorities, i);
    }
  }

  /** Bounded waiting: a VM that stays live is picked within n calls under round robin and within
      3(n - 1) + 1 calls under the feedback queues. */
  lemma BoundedWaiting(p: Policy, history: seq<seq<VmStatus>>, priorities: seq<int32>, i: nat)
    requires history != [] && IsRun(history) && LiveThroughout(history, i)
    requires Fair(p) && PolicySound(p, history[0])
    requires |history| >= MaxWait(p, |history[0]|) + 1
    ensures i in Picks(p, history, priorities)
  {
    FairPick(p, history[0], priorities, i);
    PickedWithinRank(p, history, priorities, i);
  }

  // ---------------------------------------------------------------------------------------
  // Round robin deals evenly
  // ---------------------------------------------------------------------------------------

  function Count(picks: seq<nat>, i: nat): nat {
    if picks == [] then 0 else (if picks[0] == i then 1 else 0) + Count(picks[1..], i)
  }

  /** Whether the cursor has already passed i in the current round. */
  function Served(cursor: nat, i: nat): nat {
    if i < cursor then 1 else 0
  }

  /** One pick: the picked VM gets one turn, and every live VM's account balances against the same
      round counter, which moves when the cursor wraps. */
  lemma RoundRobinAccount(cursor: nat, statuses: seq<VmStatus>, i: nat, j: nat)
    requires cursor < |statuses| && Live(statuses, i) && Live(statuses, j)
    ensures var c := RoundRobinPick(cursor, statuses);
            var after := c.next.cursor;
            && c.next.RoundRobin? && after < |statuses|
            && (if c.index == i then 1 else 0) - Served(after, i) + Served(cursor, i)
            == (if c.index == j then 1 else 0) - Served(after, j) + Served(cursor, j)
  {
    ScanIsFirst(statuses, cursor, 0, i);
    ScanIsFirst(statuses, cursor, 0, j);
    ModOnce(RoundRobinPick(cursor, statuses).index + 1, |statuses|);
  }

  /** The cursor after a run of picks. */
  function CursorAfter(cursor: nat, history: seq<seq<VmStatus>>): nat
    decreases |history|
  {
    if history == [] then cursor
    else
      var c := RoundRobinPick(cursor, history[0]);
      CursorAfter(if c.next.RoundRobin? then c.next.cursor else cursor, history[1..])
  }

  lemma {:induction false} RoundRobinAccounts(
    cursor: nat, history: seq<seq<VmStatus>>, priorities: seq<int32>, n: nat, i: nat, j: nat)
    requires cursor < n && forall t | 0 <= t < |history| :: |history[t]| == n
    requires LiveThroughout(history, i) && LiveThroughout(history, j)
    ensures var picks := Picks(RoundRobin(cursor), history, priorities);
            var after := CursorAfter(cursor, history);
            Count(picks, i) - Served(after, i) + Served(cursor, i)
            == Count(picks, j) - Served(after, j) + Served(cursor, j)
    decreases |history|
  {
    if history != [] {
      RoundRobinAccount(cursor, history[0], i, j);
      var c := RoundRobinPick(cursor, history[0]);
      var picks := Picks(RoundRobin(cursor), history, priorities);
      assert picks[1..] == Picks(c.next, history[1..], priorities);
      RoundRobinAccounts(c.next.cursor, history[1..], priorities, n, i, j);
    }
  }

  /** Round-robin fairness: at every point of a run the turns of any two VMs live so far differ by at
      most one, the earlier index leading. */
  lemma RoundRobinEven(history: seq<seq<VmStatus>>, priorities: seq<int32>, n: nat, i: nat, j: nat)
    requires n > 0 && forall t | 0 <= t < |history| :: |history[t]| == n
    requires LiveThroughout(history, i) && LiveThroughout(history, j) && i <= j
    ensures var picks := Picks(RoundRobin(0), history, priorities);
            0 <= Count(picks, i) - Count(picks, j) <= 1
  {
    RoundRobinAccounts(0, history, priorities, n, i, j);
  }

  // ---------------------------------------------------------------------------------------
  // The feedback queues deal evenly
  // ---------------------------------------------------------------------------------------

  /** The three levels without their dead VMs. */
  function LiveLevels(p: Policy, statuses: seq<VmStatus>): (levels: Policy)
    requires p.Mlfq?
    ensures levels.Mlfq?
  {
    Mlfq(true, LiveOnly(p.high, statuses), LiveOnly(p.mid, statuses), LiveOnly(p.low, statuses))
  }

  /** The queue holds both, i in front of j. */
  predicate Ahead(q: seq<nat>, i: nat, j: nat) {
    q != [] && if q[0] == i then j in q[1..] else q[0] != j && Ahead(q[1..], i, j)
  }

  /** Where two live VMs can stand, with the turns i has had more than j: going down one level after the
      other, each of them in order, and then taking three turns at a time. */
  ghost predicate Balanced(l: Policy, i: nat, j: nat, lead: int)
    requires l.Mlfq?
  {
    || (Ahead(l.high, i, j) && lead == 0)
    || (i in l.mid && j in l.high && lead == 1)
    || (Ahead(l.mid, i, j) && lead == 0)
    || (l.high == [] && i in l.low && j in l.mid && lead == 1)
    || (l.high == [] && Ahead(l.low, i, j) && lead == 0)
    || (|l.high| + |l.mid| <= 1 && TakingThree(l, i, j, lead))
  }

  ghost predicate TakingThree(l: Policy, i: nat, j: nat, lead: int)
    requires l.Mlfq?
  {
    || (Ahead(l.low, i, j) && lead == 0)
    || (i in l.high && j in l.low && lead == 1)
    || (i in l.mid && j in l.low && lead == 2)
    || (Ahead(l.low, j, i) && lead == 3)
    || (j in l.high && i in l.low && lead == 2)
    || (j in l.mid && i in l.low && lead == 1)
  }

  lemma {:induction false} AheadAppend(q: seq<nat>, i: nat, j: nat, last: nat)
    requires i != j
    ensures Ahead(q, i, j) ==> i in q && j in q && Ahead(q + [last], i, j)
    ensures i in q && j !in q && last == j ==> Ahead(q + [last], i, j)
  {
    if q != [] {
      assert (q + [last])[1..] == q[1..] + [last];
      AheadAppend(q[1..], i, j, last);
    }
  }

  lemma {:induction false} FullQueueAhead(n: nat, i: nat, j: nat)
    requires i < j < n
    ensures Ahead(FullQueue(n), i, j)
  {
    assert FullQueue(n) == FullQueue(n - 1) + [n - 1];
    AheadAppend(FullQueue(n - 1), i, j, n - 1);
    if j < n - 1 {
      FullQueueAhead(n - 1, i, j);
    } else {
      assert FullQueue(n - 1)[i] == i;
    }
  }

  lemma LiveOnlyStep(q: seq<nat>, statuses: seq<VmStatus>)
    requires q != []
    ensures var rest := LiveOnly(q[1..], statuses);
            if Live(statuses, q[0])
            then LiveOnly(q, statuses) == [q[0]] + rest && LiveOnly(q, statuses)[1..] == rest
            else LiveOnly(q, statuses) == rest
  {
  }

  /** Leaving out dead VMs keeps the order of live ones. */
  lemma {:induction false} LiveOnlyKeeps(q: seq<nat>, statuses: seq<VmStatus>, i: nat, j: nat)
    requires Live(statuses, i) && Live(statuses, j)
    ensures |LiveOnly(q, statuses)| <= |q|
    ensures i in LiveOnly(q, statuses) <==> i in q
    ensures j in LiveOnly(q, statuses) <==> j in q
    ensures Ahead(q, i, j) ==> Ahead(LiveOnly(q, statuses), i, j)
    ensures Ahead(q, j, i) ==> Ahead(LiveOnly(q, statuses), j, i)
  {
    if q != [] {
      LiveOnlyKeeps(q[1..], statuses, i, j);
      LiveOnlyStep(q, statuses);
    }
  }

  lemma {:induction false} LiveOnlyAgain(q: seq<nat>, before: seq<VmStatus>, after: seq<VmStatus>)
    requires Follows(before, after)
    ensures LiveOnly(LiveOnly(q, before), after) == LiveOnly(q, after)
  {
    if q != [] {
      LiveOnlyAgain(q[1..], before, after);
      LiveOnlyStep(q, before);
      LiveOnlyStep(q, after);
    }
  }

  /** More VMs dying leaves the two where they stand. */
  lemma BalancedFollows(p: Policy, before: seq<VmStatus>, after: seq<VmStatus>, i: nat, j: nat, lead: int)
    requires p.Mlfq? && Follows(before, after) && Live(after, i) && Live(after, j)
    requires Balanced(LiveLevels(p, before), i, j, lead)
    ensures Balanced(LiveLevels(p, after), i, j, lead)
  {
    hide LiveOnly, Ahead;
    LiveOnlyAgain(p.high, before, after);
    LiveOnlyAgain(p.mid, before, after);
    LiveOnlyAgain(p.low, before, after);
    LiveOnlyKeeps(LiveOnly(p.high, before), after, i, j);
    LiveOnlyKeeps(LiveOnly(p.mid, before), after, i, j);
    LiveOnlyKeeps(LiveOnly(p.low, before), after, i, j);
  }

  /** On the live levels a pick is a rotation. */
  lemma LevelsRotate(p: Policy, statuses: seq<VmStatus>, i: nat)
    requires p.Mlfq? && p.initialized && QueuesSound(p, statuses) && Live(statuses, i)
    ensures var c, r := MlfqPick(p, statuses), Rotate(LiveLevels(p, statuses), |statuses|);
            c.index == r.index && c.next.Mlfq? && LiveLevels(c.next, statuses) == r.next
  {
    MlfqLevels(p, statuses);
    LiveOnlyKeeps(p.high, statuses, i, i);
    LiveOnlyKeeps(p.mid, statuses, i, i);
    LiveOnlyKeeps(p.low, statuses, i, i);
    QueuedOnce(p, statuses, i);
  }

  function Lead(index: nat, i: nat, j: nat): int {
    (if index == i then 1 else 0) - if index == j then 1 else 0
  }

  lemma BalancedStep(l: Policy, n: nat, i: nat, j: nat, lead: int)
    requires l.Mlfq? && i != j && InOneLevel(l, i) && InOneLevel(l, j) && Balanced(l, i, j, lead)
    ensures var c := Rotate(l, n);
            c.next.Mlfq? && Balanced(c.next, i, j, lead + Lead(c.index, i, j))
  {
    var c := Rotate(l, n).index;
    AheadAppend(l.mid, i, j, c);
    AheadAppend(l.low, i, j, c);
    AheadAppend(l.low, j, i, c);
  }

  /** Both VMs are live and balanced at a pick, and still are, one turn on. */
  lemma BalancedPick(p: Policy, statuses: seq<VmStatus>, i: nat, j: nat, lead: int)
    requires p.Mlfq? && p.initialized && QueuesSound(p, statuses)
    requires Live(statuses, i) && Live(statuses, j) && i != j
    requires Balanced(LiveLevels(p, statuses), i, j, lead)
    ensures var c := MlfqPick(p, statuses);
            && c.next.Mlfq? && c.next.initialized && QueuesSound(c.next, statuses)
            && Balanced(LiveLevels(c.next, statuses), i, j, lead + Lead(c.index, i, j))
  {
    hide Balanced, LiveOnly, MlfqPick, Rotate;
    MlfqFairPick(p, statuses, i);
    LevelsRotate(p, statuses, i);
    LiveOnlyKeeps(p.high, statuses, i, j);
    LiveOnlyKeeps(p.mid, statuses, i, j);
    LiveOnlyKeeps(p.low, statuses, i, j);
    QueuedOnce(p, statuses, i);
    QueuedOnce(p, statuses, j);
    BalancedStep(LiveLevels(p, statuses), |statuses|, i, j, lead);
  }

  lemma LeadBounds(l: Policy, i: nat, j: nat, lead: int)
    requires l.Mlfq? && Balanced(l, i, j, lead)
    ensures 0 <= lead <= 3
  {
  }

  lemma {:induction false} MlfqLead(
    p: Policy, history: seq<seq<VmStatus>>, priorities: seq<int32>, i: nat, j: nat, lead: int)
    requires history != [] && IsRun(history) && LiveThroughout(history, i) && LiveThroughout(history, j) && i != j
    requires p.Mlfq? && p.initialized && QueuesSound(p, history[0])
    requires Balanced(LiveLevels(p, history[0]), i, j, lead)
    ensures var picks := Picks(p, history, priorities);
            0 <= lead + Count(picks, i) - Count(picks, j) <= 3
    decreases |history|
  {
    hide Balanced, QueuesSound, LiveLevels, MlfqPick;
    var c, rest, picks := MlfqPick(p, history[0]), history[1..], Picks(p, history, priorities);
    var after := lead + Lead(c.index, i, j);
    BalancedPick(p, history[0], i, j, lead);
    assert picks[1..] == Picks(c.next, rest, priorities);
    if rest == [] {
      LeadBounds(LiveLevels(c.next, history[0]), i, j, after);
    } else {
      assert Follows(history[0], history[1]);
      BalancedFollows(c.next, history[0], history[1], i, j, after);
      QueuesFollow(c.next, history[0], history[1]);
      assert forall t | 0 < t < |rest| :: rest[t - 1] == history[t] && rest[t] == history[t + 1];
      assert forall t | 0 < t < |rest| :: Follows(rest[t - 1], rest[t]);
      MlfqLead(c.next, rest, priorities, i, j, after);
    }
  }

  lemma QueuesFollow(p: Policy, before: seq<VmStatus>, after: seq<VmStatus>)
    requires p.Mlfq? && p.initialized && QueuesSound(p, before) && Follows(before, after)
    ensures QueuesSound(p, after)
  {
    SoundnessFollows(p, before, after);
  }

  /** A new scheduler starts with every VM in the high queue, in order. */
  lemma StartsBalanced(statuses: seq<VmStatus>, i: nat, j: nat)
    requires Live(statuses, i) && Live(statuses, j) && i < j
    ensures var p := Started(Mlfq(false, [], [], []), |statuses|);
            QueuesSound(p, statuses) && Balanced(LiveLevels(p, statuses), i, j, 0)
  {
    hide LiveOnly;
    StartedIsSound(Mlfq(false, [], [], []), statuses);
    FullQueueAhead(|statuses|, i, j);
    LiveOnlyKeeps(FullQueue(|statuses|), statuses, i, j);
  }

  /** Fairness of the feedback queues: at every point of a run of a new scheduler the turns of any two
      VMs live so far differ by at most three, the earlier index leading. */
  lemma MlfqEven(history: seq<seq<VmStatus>>, priorities: seq<int32>, i: nat, j: nat)
    requires IsRun(history) && LiveThroughout(history, i) && LiveThroughout(history, j) && i <= j
    ensures var picks := Picks(Mlfq(false, [], [], []), history, priorities);
            0 <= Count(picks, i) - Count(picks, j) <= 3
  {
    hide QueuesSound, Balanced, IsRun;
    if history != [] && i < j {
      var p := Started(Mlfq(false, [], [], []), |history[0]|);
      StartsBalanced(history[0], i, j);
      assert Picks(p, history, priorities) == Picks(Mlfq(false, [], [], []), history, priorities);
      MlfqLead(p, history, priorities, i, j, 0);
    }
  }

  /** Three is reached: two VMs that stay live are picked 0, 1, 0, 1 and then 0, 0, 0. */
  lemma MlfqThreeApart()
    ensures var picks := Picks(Mlfq(false, [], [], []), seq(7, _ => [Ready, Ready]), []);
            Count(picks, 0) - Count(picks, 1) == 3
  {
    hide Picks, Count;
    assert FullQueue(2) == [0, 1] && [0, 1][1..] == [1] && [1][1..] == [] && [0][1..] == [];
    assert [] + [0] == [0] && [] + [1] == [1] && [0] + [1] == [0, 1];
    PickThenRest(Mlfq(false, [], [], []), 7, 0, Mlfq(true, [1], [0], []));
    PickThenRest(Mlfq(true, [1], [0], []), 6, 1, Mlfq(true, [], [0, 1], []));
    PickThenRest(Mlfq(true, [], [0, 1], []), 5, 0, Mlfq(true, [], [1], [0]));
    PickThenRest(Mlfq(true, [], [1], [0]), 4, 1, Mlfq(true, [], [], [0, 1]));
    ThreeInARow();
  }

  lemma ThreeInARow()
    ensures var picks := Picks(Mlfq(true, [], [], [0, 1]), seq(3, _ => [Ready, Ready]), []);
            Count(picks, 0) == 3 && Count(picks, 1) == 0
  {
    hide Picks, Count;
    assert [0, 1][1..] == [1] && [0][1..] == [] && [] + [0] == [0] && [1] + [0] == [1, 0];
    PickThenRest(Mlfq(true, [], [], [0, 1]), 3, 0, Mlfq(true, [0], [], [1]));
    PickThenRest(Mlfq(true, [0], [], [1]), 2, 0, Mlfq(true, [], [0], [1]));
    PickThenRest(Mlfq(true, [], [0], [1]), 1, 0, Mlfq(true, [], [], [1, 0]));
    NothingPicked(Mlfq(true, [], [], [1, 0]));
  }

  lemma NothingPicked(p: Policy)
    ensures var picks := Picks(p, seq(0, _ => [Ready, Ready]), []);
            Count(picks, 0) == Count(picks, 1) == 0
  {
  }

  /** A pick from queues of two VMs that are both live. */
  lemma PickThenRest(p: Policy, n: nat, index: nat, next: Policy)
    requires n > 0 && p.Mlfq? && next.Mlfq?
    requires var s := Started(p, 2);
             && (s.high != [] ==> s.high[0] < 2) && (s.mid != [] ==> s.mid[0] < 2) && (s.low != [] ==> s.low[0] < 2)
             && Rotate(s, 2) == Choice(index, next)
    ensures var picks := Picks(p, seq(n, _ => [Ready, Ready]), []);
            var rest := Picks(next, seq(n - 1, _ => [Ready, Ready]), []);
            && Count(picks, 0) == Count(rest, 0) + (if index == 0 then 1 else 0)
            && Count(picks, 1) == Count(rest, 1) + (if index == 1 then 1 else 0)
  {
    var history := seq(n, _ => [Ready, Ready]);
    assert history[1..] == seq(n - 1, _ => [Ready, Ready]);
    assert Drained(Started(p, 2), [Ready, Ready]) == Started(p, 2);
    assert Picks(p, history, [])[1..] == Picks(next, history[1..], []);
  }

  // ---------------------------------------------------------------------------------------
  // Priority runs in order
  // ---------------------------------------------------------------------------------------

  /** In a run, an eligible pick never comes before an earlier pick in the order priority descending,
      index ascending, and a different VM picked earlier is done by then. */
  lemma PriorityBlocks(history: seq<seq<VmStatus>>, priorities: seq<int32>, t: nat, u: nat)
    requires IsRun(history) && t <= u < |history|
    requires var picks := Picks(Priority, history, priorities);
             Eligible(history[u], priorities, picks[u])
    ensures var picks := Picks(Priority, history, priorities);
            && picks[t] < |priorities|
            && (picks[t] == picks[u]
                || (Before(priorities, picks[t], picks[u]) && !Live(history[u], picks[t])))
  {
    hide Picks, IsRun;
    PriorityPicksAre(history, priorities, t);
    PriorityPicksAre(history, priorities, u);
    var i := Picks(Priority, history, priorities)[u];
    LiveEarlier(history, i, t, u);
    BestIsFirst(history[t], priorities, |history[t]|);
    var early := Picks(Priority, history, priorities)[t];
    if early != i {
      FirstOfTheLiving(history[u], priorities, early);
    }
  }

  /** Whatever comes before an eligible pick in the order is not live. */
  lemma FirstOfTheLiving(statuses: seq<VmStatus>, priorities: seq<int32>, i: nat)
    requires var best := BestOf(statuses, priorities, |statuses|).index;
             Eligible(statuses, priorities, best) && i < |priorities| && Before(priorities, i, best)
    ensures !Live(statuses, i)
  {
    BestIsFirst(statuses, priorities, |statuses|);
    assert Live(statuses, i) ==> Eligible(statuses, priorities, i);
  }

  /** Between two picks of the same eligible VM there is no pick of another one. */
  lemma PriorityContiguous(history: seq<seq<VmStatus>>, priorities: seq<int32>, s: nat, t: nat, u: nat)
    requires IsRun(history) && s <= t <= u < |history|
    requires var picks := Picks(Priority, history, priorities);
             picks[s] == picks[u] && Eligible(history[u], priorities, picks[u])
    ensures var picks := Picks(Priority, history, priorities);
            picks[t] == picks[u]
  {
    hide Picks, IsRun, Before;
    PriorityPicksAre(history, priorities, s);
    PriorityPicksAre(history, priorities, t);
    var picks := Picks(Priority, history, priorities);
    LiveEarlier(history, picks[u], t, u);
    BestIsFirst(history[t], priorities, |history[t]|);
    assert Eligible(history[t], priorities, picks[u]);
    if picks[t] != picks[u] {
      LiveEarlier(history, picks[t], s, t);
      BestIsFirst(history[s], priorities, |history[s]|);
      assert Eligible(history[s], priorities, picks[t]);
      BeforeIsStrict(priorities, picks[t], picks[u]);
      assert false;
    }
  }

  lemma BeforeIsStrict(priorities: seq<int32>, i: nat, j: nat)
    requires i < |priorities| && j < |priorities| && Before(priorities, i, j)
    ensures !Before(priorities, j, i)
  {
  }

  lemma {:induction false} LiveEarlier(history: seq<seq<VmStatus>>, i: nat, t: nat, u: nat)
    requires IsRun(history) && t <= u < |history| && Live(history[u], i)
    ensures Live(history[t], i)
    decreases u
  {
    if t < u {
      assert Follows(history[u - 1], history[u]);
      LiveEarlier(history, i, t, u - 1);
    }
  }

  lemma {:induction false} PriorityPicksAre(history: seq<seq<VmStatus>>, priorities: seq<int32>, t: nat)
    requires t < |history|
    ensures Picks(Priority, history, priorities)[t]
         == BestOf(history[t], priorities, |history[t]|).index
  {
    if t > 0 {
      PriorityPicksAre(history[1..], priorities, t - 1);
    }
  }
}
