/** Acquisition and cleanup of everything the program owns, from every failure point. */
module Lifecycle {
  import opened Errors

  // ---------------------------------------------------------------------------------------------
  // Accounting: a slot is a pointer or handle variable, zero when it holds nothing

  /** What is live is what was live before plus what the slots hold. */
  ghost predicate Adds(live: multiset<int>, before: multiset<int>, slots: seq<int>) {
    forall id :: live[id] == before[id] + if id == 0 then 0 else multiset(slots)[id]
  }

  lemma AddsTransitive(before: multiset<int>, middle: multiset<int>, after: multiset<int>, a: seq<int>, b: seq<int>)
    requires Adds(middle, before, a) && Adds(after, middle, b)
    ensures Adds(after, before, a + b)
  {
    assert multiset(a + b) == multiset(a) + multiset(b);
  }

  /** Releasing the first slots leaves the rest. */
  lemma AddsCancel(before: multiset<int>, left: multiset<int>, live: multiset<int>, a: seq<int>, b: seq<int>)
    requires Adds(live, before, a + b) && Adds(live, left, a)
    ensures Adds(left, before, b)
  {
    assert multiset(a + b) == multiset(a) + multiset(b);
  }

  lemma AddsNothing(before: multiset<int>, live: multiset<int>)
    requires Adds(live, before, [])
    ensures live == before
  {
    assert forall id :: live[id] == before[id];
  }

  lemma AddsSlot(before: multiset<int>, live: multiset<int>, after: multiset<int>, slots: seq<int>, i: nat, id: int)
    requires i < |slots| && slots[i] == 0
    requires Adds(live, before, slots) && Adds(after, live, [id])
    ensures Adds(after, before, slots[i := id])
  {
    assert multiset(slots[i := id]) == multiset(slots) - multiset{0} + multiset{id};
  }

  /** What calloc gives: every slot empty. */
  function EmptySlots(n: nat): (r: seq<int>)
    ensures |r| == n && forall i: nat :: i < n ==> r[i] == 0
    ensures forall live: multiset<int> :: Adds(live, live, r)
  {
    seq(n, _ => 0)
  }

  lemma EmptySlotsAdd(live: multiset<int>, m: nat, n: nat)
    ensures Adds(live, live, EmptySlots(m) + EmptySlots(n))
  {
  }

  lemma AddsZero(before: multiset<int>, live: multiset<int>)
    requires Adds(live, before, [0])
    ensures live == before
  {
    assert forall id :: live[id] == before[id];
  }

  lemma NoneAdded(heap: multiset<int>, buffers: multiset<int>)
    ensures Adds(heap, heap, [0, 0]) && Adds(buffers, buffers, []) && Adds(buffers, buffers, [] + [])
  {
  }

  lemma StillLive(before: multiset<int>, live: multiset<int>, added: seq<int>, slots: seq<int>)
    requires Adds(live, before, added)
    ensures forall i: nat :: i < |slots| && slots[i] in before ==> slots[i] in live
  {
    forall i: nat | i < |slots| && slots[i] in before
      ensures slots[i] in live
    {
      var id := slots[i];
      assert live[id] == before[id] + if id == 0 then 0 else multiset(added)[id];
    }
  }

  /** Whatever a slot holds is live. */
  lemma AllLive(before: multiset<int>, live: multiset<int>, slots: seq<int>)
    requires Adds(live, before, slots)
    ensures forall i: nat :: i < |slots| && slots[i] != 0 ==> slots[i] in live
  {
    forall i: nat | i < |slots| && slots[i] != 0
      ensures slots[i] in live
    {
      assert live[slots[i]] == before[slots[i]] + multiset(slots)[slots[i]];
    }
  }

  lemma AddsSwapped(before: multiset<int>, live: multiset<int>, a: seq<int>, b: seq<int>)
    requires Adds(live, before, a + b)
    ensures Adds(live, before, b + a)
  {
    assert multiset(a + b) == multiset(a) + multiset(b);
    assert multiset(b + a) == multiset(b) + multiset(a);
  }

  /** Two acquisitions, listed with the later one first, as they are released. */
  lemma AddsLaterFirst(h0: multiset<int>, h1: multiset<int>, h2: multiset<int>, first: seq<int>, later: seq<int>)
    requires Adds(h1, h0, first) && Adds(h2, h1, later)
    ensures Adds(h2, h0, later + first)
  {
    AddsTransitive(h0, h1, h2, first, later);
    AddsSwapped(h0, h2, first, later);
  }

  lemma PairUpdate(a: seq<int>, b: seq<int>, i: nat, x: int, y: int)
    requires i < |a| && i < |b|
    ensures (a + b)[i := x][|a| + i := y] == a[i := x] + b[i := y]
    ensures (a + b)[i := x][|a| + i] == b[i]
  {
  }

  lemma FrontSlot(slots: seq<int>, kept: seq<int>, i: nat)
    requires i < |slots|
    ensures slots[i..] + kept == [slots[i]] + (slots[i + 1..] + kept)
  {
  }

  /** The blocks of a whole run, listed in the order of their release. */
  lemma AddsBlocks(h0: multiset<int>, h1: multiset<int>, h2: multiset<int>, uri: int, a: int, b: int, c: int)
    requires Adds(h1, h0, [uri]) && Adds(h2, h1, [a, b, c])
    ensures Adds(h2, h0, [a, b, c, uri])
  {
    AddsLaterFirst(h0, h1, h2, [uri], [a, b, c]);
    assert [a, b, c] + [uri] == [a, b, c, uri];
  }

  lemma AddsSessionBlocks(h0: multiset<int>, h1: multiset<int>, h2: multiset<int>, handles: int, a: int, b: int)
    requires Adds(h1, h0, [handles]) && Adds(h2, h1, [a, b])
    ensures Adds(h2, h0, [a, b, handles])
  {
    AddsLaterFirst(h0, h1, h2, [handles], [a, b]);
    assert [a, b] + [handles] == [a, b, handles];
  }

  lemma AddsZeros(before: multiset<int>, live: multiset<int>, buffers: multiset<int>, id: int)
    requires Adds(live, before, [id])
    ensures Adds(live, before, [0, 0, id]) && Adds(buffers, buffers, [] + [] + [])
  {
  }

  // ---------------------------------------------------------------------------------------------
  // The platform

  type Id = x: int | x != 0 witness 1

  /** What the program asks of the device, in the order it may ask. */
  datatype Event = PowerVote | DeviceInfo | NullCalls | ComputeDispatch | HmxEntry(i: nat) | MemEntry(i: nat)

  /**
   * The C heap, the shared-memory allocator and the remote sessions: what is live of each, and how
   * many buffers were ever allocated and sessions ever opened. The log is what was asked of the device.
   */
  class Platform {
    var heap: multiset<int>
    var buffers: multiset<int>
    var sessions: multiset<int>
    var buffersEver: nat
    var sessionsEver: nat
    var log: seq<Event>

    constructor ()
      ensures heap == buffers == sessions == multiset{} && buffersEver == sessionsEver == 0 && log == []
    {
      log := [];
      heap, buffers, sessions, buffersEver, sessionsEver := multiset{}, multiset{}, multiset{}, 0, 0;
    }

    /** malloc and calloc. */
    method Malloc(answer: int) returns (id: int)
      modifies `heap
      ensures id == answer && Adds(heap, old(heap), [id])
    {
      id := answer;
      if id != 0 {
        heap := heap + multiset{id};
      }
    }

    method RpcmemAlloc(answer: int) returns (id: int)
      modifies `buffers, `buffersEver
      ensures id == answer && Adds(buffers, old(buffers), [id])
      ensures buffersEver == old(buffersEver) + if id == 0 then 0 else 1
    {
      id := answer;
      if id != 0 {
        buffers := buffers + multiset{id};
        buffersEver := buffersEver + 1;
      }
    }

    /** A successful open gives a nonzero handle; a failed one leaves zero. */
    method Open(answer: int, session: Id) returns (err: int, handle: int)
      modifies `sessions, `sessionsEver
      ensures err == answer && (handle != 0 <==> err == 0)
      ensures Adds(sessions, old(sessions), [handle])
      ensures sessionsEver == old(sessionsEver) + if err == 0 then 1 else 0
    {
      err, handle := answer, 0;
      if err == 0 {
        handle := session;
        sessions := sessions + multiset{handle};
        sessionsEver := sessionsEver + 1;
      }
    }

    /** Freeing nothing is allowed; anything else must be live. */
    method Free(id: int)
      requires id != 0 ==> id in heap
      modifies `heap
      ensures Adds(old(heap), heap, [id])
    {
      if id != 0 {
        heap := heap - multiset{id};
      }
    }

    method RpcmemFree(id: int)
      requires id != 0 && id in buffers
      modifies `buffers
      ensures Adds(old(buffers), buffers, [id])
    {
      buffers := buffers - multiset{id};
    }

    method Close(handle: int)
      requires handle != 0 && handle in sessions
      modifies `sessions
      ensures Adds(old(sessions), sessions, [handle])
    {
      sessions := sessions - multiset{handle};
    }

    /** A measurement: everything it is given must be live. */
    method Measure(what: Event, answer: int, ghost handles: seq<int>, ghost given: seq<int>) returns (err: int)
      requires forall i: nat :: i < |handles| ==> handles[i] in sessions
      requires forall i: nat :: i < |given| ==> given[i] in buffers
      modifies `log
      ensures err == answer && log == old(log) + [what]
    {
      log := log + [what];
      err := answer;
    }
  }

  // ---------------------------------------------------------------------------------------------
  // The program

  /**
   * The outcome of everything outside the program's control. rpcErr and computeErr are the results of
   * the null-call run and of the compute dispatch, zero when nothing of their kind is enabled.
   */
  datatype World = World(
    sizeTooLarge: bool, unsignedPdRefused: bool, archErr: int, uri: int,
    handlesBlock: int, openErr: nat -> int, session: nat -> Id, powerErr: int, infoErr: int,
    srcsBlock: int, dstsBlock: int, src: nat -> int, dst: nat -> int,
    rpcErr: int, computeErr: int,
    hmxCount: nat, hmxEnabled: nat -> bool, activation: int, weight: int, output: int, hmxErr: nat -> int,
    memCount: nat, memEnabled: nat -> bool, memErr: nat -> int)

  ghost predicate Filled(slots: seq<int>) {
    forall i: nat :: i < |slots| ==> slots[i] != 0
  }

  ghost predicate NeedsMemory(world: World) {
    exists i: nat :: i < world.memCount && world.memEnabled(i)
  }

  ghost predicate NeedsHmx(world: World) {
    exists i: nat :: i < world.hmxCount && world.hmxEnabled(i)
  }

  /** What a run without failures allocates. */
  ghost function BuffersNeeded(world: World, threads: nat): nat {
    (if NeedsMemory(world) then 2 * threads else 0) + if NeedsHmx(world) then 3 else 0
  }

  ghost predicate SessionsOpen(world: World, threads: nat) {
    world.handlesBlock != 0 && forall i: nat :: i < threads ==> world.openErr(i) == 0
  }

  ghost predicate BuffersAllocated(world: World, threads: nat) {
    && world.srcsBlock != 0 && world.dstsBlock != 0
    && forall i: nat :: i < threads ==> world.src(i) != 0 && world.dst(i) != 0
  }

  ghost predicate HmxAllocated(world: World) {
    world.activation != 0 && world.weight != 0 && world.output != 0
  }

  ghost predicate HmxSucceeds(world: World) {
    && (NeedsHmx(world) ==> HmxAllocated(world))
    && (forall i: nat :: i < world.hmxCount && world.hmxEnabled(i) ==> world.hmxErr(i) == 0)
  }

  ghost predicate MemSucceeds(world: World) {
    forall i: nat :: i < world.memCount && world.memEnabled(i) ==> world.memErr(i) == 0
  }

  ghost predicate PreparationSucceeds(world: World, threads: nat) {
    && world.powerErr == 0 && world.infoErr == 0
    && (NeedsMemory(world) ==> BuffersAllocated(world, threads))
  }

  ghost predicate ScenariosSucceed(world: World) {
    world.rpcErr == 0 && world.computeErr == 0 && HmxSucceeds(world) && MemSucceeds(world)
  }

  ghost predicate BodySucceeds(world: World, threads: nat) {
    SessionsOpen(world, threads) && PreparationSucceeds(world, threads) && ScenariosSucceed(world)
  }

  /** Nothing the program needs fails; what it does not need may. */
  ghost predicate AllSucceed(world: World, threads: nat) {
    && !world.sizeTooLarge && !world.unsignedPdRefused && world.archErr == 0 && world.uri != 0
    && BodySucceeds(world, threads)
  }

  // ---------------------------------------------------------------------------------------------
  // The order of events

  ghost function AnswerOf(world: World, e: Event): int {
    match e
    case PowerVote => world.powerErr
    case DeviceInfo => world.infoErr
    case NullCalls => world.rpcErr
    case ComputeDispatch => world.computeErr
    case HmxEntry(i) => world.hmxErr(i)
    case MemEntry(i) => world.memErr(i)
  }

  /** The enabled HMX entries among the first k, in order. */
  ghost function HmxPlan(world: World, k: nat): seq<Event> {
    if k == 0 then []
    else HmxPlan(world, k - 1) + if world.hmxEnabled(k - 1) then [HmxEntry(k - 1)] else []
  }

  ghost function MemPlan(world: World, k: nat): seq<Event> {
    if k == 0 then []
    else MemPlan(world, k - 1) + if world.memEnabled(k - 1) then [MemEntry(k - 1)] else []
  }

  ghost function Plan(world: World): seq<Event> {
    [PowerVote, DeviceInfo] + ([NullCalls, ComputeDispatch] + HmxPlan(world, world.hmxCount)
                               + MemPlan(world, world.memCount))
  }

  /** The log follows a plan; nothing is asked after a failure, and a plan that is done was asked in full. */
  ghost predicate Follows(world: World, before: seq<Event>, after: seq<Event>, plan: seq<Event>, done: bool) {
    && before <= after <= before + plan
    && (forall p: nat :: |before| <= p < |after| - 1 ==> AnswerOf(world, after[p]) == 0)
    && (done ==> after == before + plan && forall p: nat :: |before| <= p < |after| ==> AnswerOf(world, after[p]) == 0)
  }

  lemma FollowsNone(world: World, before: seq<Event>, plan: seq<Event>)
    ensures Follows(world, before, before, [], true) && Follows(world, before, before, plan, false)
  {
    assert before + [] == before;
  }

  lemma FollowsOne(world: World, before: seq<Event>, e: Event)
    ensures Follows(world, before, before + [e], [e], AnswerOf(world, e) == 0)
  {
  }

  lemma FollowsThen(world: World, a: seq<Event>, b: seq<Event>, c: seq<Event>, p: seq<Event>, q: seq<Event>, done: bool)
    requires Follows(world, a, b, p, true) && Follows(world, b, c, q, done)
    ensures Follows(world, a, c, p + q, done)
  {
    assert a + (p + q) == (a + p) + q;
  }

  lemma FollowsStop(world: World, a: seq<Event>, b: seq<Event>, p: seq<Event>, q: seq<Event>)
    requires Follows(world, a, b, p, false)
    ensures Follows(world, a, b, p + q, false)
  {
    assert a + (p + q) == (a + p) + q;
  }

  lemma FollowsStopTwice(world: World, a: seq<Event>, b: seq<Event>, p: seq<Event>, q: seq<Event>, r: seq<Event>)
    requires Follows(world, a, b, p, false)
    ensures Follows(world, a, b, p + q + r, false)
  {
    hide Follows;
    FollowsStop(world, a, b, p, q);
    FollowsStop(world, a, b, p + q, r);
  }

  /** Two measurements one after the other, stopping after a first that fails. */
  lemma FollowsTwo(world: World, log: seq<Event>, e: Event, f: Event)
    ensures AnswerOf(world, e) != 0 ==> Follows(world, log, log + [e], [e, f], false)
    ensures AnswerOf(world, e) == 0 ==> Follows(world, log, log + [e] + [f], [e, f], AnswerOf(world, f) == 0)
    ensures AnswerOf(world, e) == 0 ==> Follows(world, log, log + [e] + [f], [e, f], false)
  {
    assert log + [e] + [f] == log + [e, f];
  }

  lemma {:induction false} HmxPlanExtends(world: World, i: nat, k: nat) returns (rest: seq<Event>)
    requires i <= k
    ensures HmxPlan(world, k) == HmxPlan(world, i) + rest
    decreases k - i
  {
    if i == k {
      rest := [];
    } else {
      rest := HmxPlanExtends(world, i, k - 1);
      rest := rest + if world.hmxEnabled(k - 1) then [HmxEntry(k - 1)] else [];
    }
  }

  lemma HmxPlanNext(world: World, i: nat)
    ensures HmxPlan(world, 0) == []
    ensures HmxPlan(world, i + 1)
      == if world.hmxEnabled(i) then HmxPlan(world, i) + [HmxEntry(i)] else HmxPlan(world, i)
  {
  }

  lemma {:induction false} MemPlanExtends(world: World, i: nat, k: nat) returns (rest: seq<Event>)
    requires i <= k
    ensures MemPlan(world, k) == MemPlan(world, i) + rest
    decreases k - i
  {
    if i == k {
      rest := [];
    } else {
      rest := MemPlanExtends(world, i, k - 1);
      rest := rest + if world.memEnabled(k - 1) then [MemEntry(k - 1)] else [];
    }
  }

  /** Stopping at an enabled entry stops the whole plan of its kind. */
  lemma HmxStops(world: World, a: seq<Event>, b: seq<Event>, c: seq<Event>, i: nat)
    requires i < world.hmxCount && world.hmxEnabled(i) && Follows(world, a, b, HmxPlan(world, i), true)
    requires Follows(world, b, c, [HmxEntry(i)], false)
    ensures Follows(world, a, c, HmxPlan(world, world.hmxCount), false)
  {
    hide Follows;
    FollowsThen(world, a, b, c, HmxPlan(world, i), [HmxEntry(i)], false);
    var rest := HmxPlanExtends(world, i + 1, world.hmxCount);
    FollowsStop(world, a, c, HmxPlan(world, i + 1), rest);
  }

  lemma MemStops(world: World, a: seq<Event>, b: seq<Event>, c: seq<Event>, i: nat)
    requires i < world.memCount && world.memEnabled(i) && Follows(world, a, b, MemPlan(world, i), true)
    requires Follows(world, b, c, [MemEntry(i)], false)
    ensures Follows(world, a, c, MemPlan(world, world.memCount), false)
  {
    hide Follows;
    FollowsThen(world, a, b, c, MemPlan(world, i), [MemEntry(i)], false);
    var rest := MemPlanExtends(world, i + 1, world.memCount);
    FollowsStop(world, a, c, MemPlan(world, i + 1), rest);
  }

  // ---------------------------------------------------------------------------------------------
  // Sessions and buffers

  /** Opens one session per thread; a failure keeps the sessions opened before it. */
  method OpenSessions(platform: Platform, world: World, threads: nat) returns (err: int, block: int, handles: seq<int>)
    modifies platform`heap, platform`sessions, platform`sessionsEver
    ensures Adds(platform.heap, old(platform.heap), [block])
    ensures Adds(platform.sessions, old(platform.sessions), handles)
    ensures |handles| == if block == 0 then 0 else threads
    ensures err == 0 <==> SessionsOpen(world, threads)
    ensures err == 0 ==> block != 0 && Filled(handles) && platform.sessionsEver == old(platform.sessionsEver) + threads
  {
    block := platform.Malloc(world.handlesBlock);
    handles := EmptySlots(if block == 0 then 0 else threads);
    if block == 0 {
      err := -ENOMEM;
      return;
    }
    var i := 0;
    while i < threads
      invariant i <= threads == |handles|
      invariant Adds(platform.heap, old(platform.heap), [block])
      invariant Adds(platform.sessions, old(platform.sessions), handles)
      invariant platform.sessionsEver == old(platform.sessionsEver) + i
      invariant forall j: nat :: i <= j < threads ==> handles[j] == 0
      invariant forall j: nat :: j < i ==> handles[j] != 0 && world.openErr(j) == 0
    {
      ghost var live := platform.sessions;
      var handle;
      err, handle := platform.Open(world.openErr(i), world.session(i));
      AddsSlot(old(platform.sessions), live, platform.sessions, handles, i, handle);
      handles := handles[i := handle];
      if err != 0 {
        return;
      }
      i := i + 1;
    }
    err := 0;
  }

  /** Allocates into slot i of the sources and of the destinations. */
  method AllocatePair(platform: Platform, src: int, dst: int, srcs: seq<int>, dsts: seq<int>, i: nat,
                      ghost before: multiset<int>) returns (srcs': seq<int>, dsts': seq<int>)
    requires i < |srcs| && i < |dsts| && srcs[i] == 0 && dsts[i] == 0 && Adds(platform.buffers, before, srcs + dsts)
    modifies platform`buffers, platform`buffersEver
    ensures srcs' == srcs[i := src] && dsts' == dsts[i := dst] && Adds(platform.buffers, before, srcs' + dsts')
    ensures src != 0 && dst != 0 ==> platform.buffersEver == old(platform.buffersEver) + 2
  {
    ghost var live, slots := platform.buffers, srcs + dsts;
    var s := platform.RpcmemAlloc(src);
    AddsSlot(before, live, platform.buffers, slots, i, s);
    live := platform.buffers;
    var d := platform.RpcmemAlloc(dst);
    PairUpdate(srcs, dsts, i, s, d);
    AddsSlot(before, live, platform.buffers, slots[i := s], |srcs| + i, d);
    srcs', dsts' := srcs[i := s], dsts[i := d];
  }

  /** The slots below i are filled from successful allocations, the others are empty. */
  ghost predicate FilledBelow(world: World, srcs: seq<int>, dsts: seq<int>, i: nat, threads: nat) {
    && i <= threads == |srcs| == |dsts|
    && (forall j: nat :: i <= j < threads ==> srcs[j] == 0 && dsts[j] == 0)
    && (forall j: nat :: j < i ==> srcs[j] == world.src(j) != 0 && dsts[j] == world.dst(j) != 0)
  }

  lemma FilledNext(world: World, srcs: seq<int>, dsts: seq<int>, i: nat, threads: nat)
    requires i < threads && FilledBelow(world, srcs, dsts, i, threads) && world.src(i) != 0 && world.dst(i) != 0
    ensures FilledBelow(world, srcs[i := world.src(i)], dsts[i := world.dst(i)], i + 1, threads)
  {
  }

  lemma AllFilled(world: World, srcs: seq<int>, dsts: seq<int>, threads: nat)
    requires FilledBelow(world, srcs, dsts, threads, threads)
    ensures Filled(srcs) && Filled(dsts)
    ensures forall i: nat :: i < threads ==> world.src(i) != 0 && world.dst(i) != 0
  {
  }

  /** Allocates the source and destination of every thread; a failure keeps what was allocated before it. */
  method AllocateBuffers(platform: Platform, world: World, threads: nat)
    returns (err: int, srcs: seq<int>, dsts: seq<int>)
    modifies platform`buffers, platform`buffersEver
    ensures Adds(platform.buffers, old(platform.buffers), srcs + dsts)
    ensures |srcs| == |dsts| == threads
    ensures err == 0 <==> forall i: nat :: i < threads ==> world.src(i) != 0 && world.dst(i) != 0
    ensures err == 0 ==> Filled(srcs) && Filled(dsts) && platform.buffersEver == old(platform.buffersEver) + 2 * threads
  {
    ghost var before := platform.buffers;
    srcs, dsts := EmptySlots(threads), EmptySlots(threads);
    EmptySlotsAdd(platform.buffers, threads, threads);
    var i := 0;
    while i < threads
      invariant FilledBelow(world, srcs, dsts, i, threads)
      invariant Adds(platform.buffers, before, srcs + dsts)
      invariant platform.buffersEver == old(platform.buffersEver) + 2 * i
    {
      ghost var s, d := srcs, dsts;
      srcs, dsts := AllocatePair(platform, world.src(i), world.dst(i), srcs, dsts, i, before);
      if srcs[i] == 0 || dsts[i] == 0 {
        err := -ENOMEM;
        return;
      }
      FilledNext(world, s, d, i, threads);
      i := i + 1;
    }
    AllFilled(world, srcs, dsts, threads);
    err := 0;
  }

  /** Prepares for memory scenarios; without both blocks there are no slots to fill. */
  method AllocateMemory(platform: Platform, world: World, threads: nat)
    returns (err: int, srcsBlock: int, dstsBlock: int, srcs: seq<int>, dsts: seq<int>)
    modifies platform`heap, platform`buffers, platform`buffersEver
    ensures Adds(platform.heap, old(platform.heap), [srcsBlock, dstsBlock])
    ensures Adds(platform.buffers, old(platform.buffers), srcs + dsts)
    ensures |srcs| == if srcsBlock == 0 then 0 else threads
    ensures |dsts| == if dstsBlock == 0 then 0 else threads
    ensures err == 0 <==> BuffersAllocated(world, threads)
    ensures err == 0 ==> Filled(srcs) && Filled(dsts) && platform.buffersEver == old(platform.buffersEver) + 2 * threads
  {
    srcsBlock := platform.Malloc(world.srcsBlock);
    ghost var middle := platform.heap;
    dstsBlock := platform.Malloc(world.dstsBlock);
    AddsTransitive(old(platform.heap), middle, platform.heap, [srcsBlock], [dstsBlock]);
    assert [srcsBlock] + [dstsBlock] == [srcsBlock, dstsBlock];
    if srcsBlock == 0 || dstsBlock == 0 {
      srcs := EmptySlots(if srcsBlock == 0 then 0 else threads);
      dsts := EmptySlots(if dstsBlock == 0 then 0 else threads);
      EmptySlotsAdd(platform.buffers, |srcs|, |dsts|);
      err := -ENOMEM;
      return;
    }
    err, srcs, dsts := AllocateBuffers(platform, world, threads);
  }

  /** Allocates the activation, weight and output buffers; a failure keeps those that were allocated. */
  method AllocateHmx(platform: Platform, world: World) returns (err: int, hmx: seq<int>)
    modifies platform`buffers, platform`buffersEver
    ensures hmx == [world.activation, world.weight, world.output]
    ensures Adds(platform.buffers, old(platform.buffers), hmx)
    ensures err == 0 <==> HmxAllocated(world)
    ensures err == 0 ==> platform.buffersEver == old(platform.buffersEver) + 3
  {
    var activation := platform.RpcmemAlloc(world.activation);
    ghost var one := platform.buffers;
    var weight := platform.RpcmemAlloc(world.weight);
    ghost var two := platform.buffers;
    var output := platform.RpcmemAlloc(world.output);
    AddsTransitive(old(platform.buffers), one, two, [activation], [weight]);
    AddsTransitive(old(platform.buffers), two, platform.buffers, [activation] + [weight], [output]);
    hmx := [activation, weight, output];
    assert [activation] + [weight] + [output] == hmx;
    err := if activation == 0 || weight == 0 || output == 0 then -ENOMEM else 0;
  }

  /** Either no HMX buffer exists yet, or all three do. */
  ghost predicate HmxReady(world: World, before: multiset<int>, live: multiset<int>, hmx: seq<int>) {
    && Adds(live, before, hmx)
    && if hmx == [] then live == before
       else HmxAllocated(world) && hmx == [world.activation, world.weight, world.output]
  }

  lemma HmxNone(world: World, before: multiset<int>)
    ensures HmxReady(world, before, before, [])
  {
  }

  lemma HmxFilled(world: World, before: multiset<int>, live: multiset<int>, hmx: seq<int>)
    requires HmxReady(world, before, live, hmx) && hmx != []
    ensures forall i: nat :: i < |hmx| ==> hmx[i] in live
  {
    AllLive(before, live, hmx);
  }

  /** One HMX scenario; buffers already allocated are used again. */
  method RunHmxScenario(platform: Platform, world: World, handle: int, i: nat, ready: seq<int>,
                        ghost before: multiset<int>) returns (err: int, hmx: seq<int>)
    requires handle in platform.sessions && HmxReady(world, before, platform.buffers, ready)
    modifies platform`buffers, platform`buffersEver, platform`log
    ensures Follows(world, old(platform.log), platform.log, [HmxEntry(i)], err == 0)
    ensures Adds(platform.buffers, before, hmx)
    ensures err == 0 <==> HmxAllocated(world) && world.hmxErr(i) == 0
    ensures err == 0 ==> hmx != [] && HmxReady(world, before, platform.buffers, hmx)
    ensures err == 0 ==> platform.buffersEver == old(platform.buffersEver) + if ready == [] then 3 else 0
  {
    hmx := ready;
    FollowsNone(world, platform.log, [HmxEntry(i)]);
    FollowsOne(world, platform.log, HmxEntry(i));
    if ready == [] {
      err, hmx := AllocateHmx(platform, world);
      if err != 0 {
        return;
      }
    }
    HmxFilled(world, before, platform.buffers, hmx);
    err := platform.Measure(HmxEntry(i), world.hmxErr(i), [handle], hmx);
  }

  /** The HMX scenarios: buffers are allocated once, when the first enabled one is reached. */
  method RunHmx(platform: Platform, world: World, handle: int) returns (err: int, hmx: seq<int>)
    requires handle in platform.sessions
    modifies platform`buffers, platform`buffersEver, platform`log
    ensures Follows(world, old(platform.log), platform.log, HmxPlan(world, world.hmxCount), err == 0)
    ensures Adds(platform.buffers, old(platform.buffers), hmx)
    ensures err == 0 <==> HmxSucceeds(world)
    ensures err == 0 ==> platform.buffersEver == old(platform.buffersEver) + if NeedsHmx(world) then 3 else 0
  {
    hmx := [];
    err := 0;
    hide Follows, HmxPlan, HmxReady, Adds, HmxAllocated, HmxSucceeds, NeedsHmx;
    ghost var before, ever, log := platform.buffers, platform.buffersEver, platform.log;
    FollowsNone(world, log, []);
    HmxPlanNext(world, 0);
    HmxNone(world, before);
    var i := 0;
    while i < world.hmxCount
      invariant i <= world.hmxCount && Follows(world, log, platform.log, HmxPlan(world, i), true)
      invariant HmxReady(world, before, platform.buffers, hmx)
      invariant forall j: nat :: j < i && world.hmxEnabled(j) ==> hmx != [] && world.hmxErr(j) == 0
      invariant hmx != [] ==> exists j: nat :: j < i && world.hmxEnabled(j)
      invariant platform.buffersEver == ever + if hmx == [] then 0 else 3
    {
      if world.hmxEnabled(i) {
        ghost var reached := platform.log;
        err, hmx := RunHmxScenario(platform, world, handle, i, hmx, before);
        if err != 0 {
          HmxStops(world, log, reached, platform.log, i);
          HmxFails(world, i);
          return;
        }
        FollowsThen(world, log, reached, platform.log, HmxPlan(world, i), [HmxEntry(i)], true);
      }
      HmxPlanNext(world, i);
      i := i + 1;
    }
    HmxDone(world, before, platform.buffers, hmx);
    err := 0;
  }

  lemma HmxFails(world: World, i: nat)
    requires i < world.hmxCount && world.hmxEnabled(i) && !(HmxAllocated(world) && world.hmxErr(i) == 0)
    ensures !HmxSucceeds(world)
  {
  }

  lemma HmxDone(world: World, before: multiset<int>, live: multiset<int>, hmx: seq<int>)
    requires HmxReady(world, before, live, hmx)
    requires forall j: nat :: j < world.hmxCount && world.hmxEnabled(j) ==> hmx != [] && world.hmxErr(j) == 0
    requires hmx != [] ==> exists j: nat :: j < world.hmxCount && world.hmxEnabled(j)
    ensures HmxSucceeds(world) && Adds(live, before, hmx) && (NeedsHmx(world) <==> hmx != [])
  {
    hide Adds;
  }

  /** The memory scenarios, none of which runs unless every buffer was allocated. */
  method RunMem(platform: Platform, world: World, handles: seq<int>, srcs: seq<int>, dsts: seq<int>)
    returns (err: int)
    requires forall i: nat :: i < |handles| ==> handles[i] in platform.sessions
    requires NeedsMemory(world) ==> forall i: nat :: i < |srcs + dsts| ==> (srcs + dsts)[i] in platform.buffers
    modifies platform`log
    ensures err == 0 <==> MemSucceeds(world)
    ensures Follows(world, old(platform.log), platform.log, MemPlan(world, world.memCount), err == 0)
  {
    hide Follows;
    ghost var log := platform.log;
    FollowsNone(world, log, []);
    var i := 0;
    while i < world.memCount
      invariant i <= world.memCount && Follows(world, log, platform.log, MemPlan(world, i), true)
      invariant forall j: nat :: j < i && world.memEnabled(j) ==> world.memErr(j) == 0
    {
      if world.memEnabled(i) {
        ghost var reached := platform.log;
        FollowsOne(world, reached, MemEntry(i));
        err := platform.Measure(MemEntry(i), world.memErr(i), handles, srcs + dsts);
        if err != 0 {
          MemStops(world, log, reached, platform.log, i);
          return;
        }
        FollowsThen(world, log, reached, platform.log, MemPlan(world, i), [MemEntry(i)], true);
      }
      assert !world.memEnabled(i) ==> MemPlan(world, i + 1) == MemPlan(world, i);
      i := i + 1;
    }
    err := 0;
  }

  method AnyEnabled(count: nat, enabled: nat -> bool) returns (any: bool)
    ensures any <==> exists i: nat :: i < count && enabled(i)
  {
    var i := 0;
    while i < count
      invariant i <= count && forall j: nat :: j < i ==> !enabled(j)
    {
      if enabled(i) {
        return true;
      }
      i := i + 1;
    }
    return false;
  }

  /** Power, device information and, when a memory scenario is enabled, its buffers. */
  method Prepare(platform: Platform, world: World, threads: nat, handles: seq<int>)
    returns (err: int, srcsBlock: int, dstsBlock: int, srcs: seq<int>, dsts: seq<int>)
    requires 0 < threads == |handles| && forall i: nat :: i < threads ==> handles[i] in platform.sessions
    modifies platform`heap, platform`buffers, platform`buffersEver, platform`log
    ensures Follows(world, old(platform.log), platform.log, [PowerVote, DeviceInfo], err == 0)
    ensures Adds(platform.heap, old(platform.heap), [srcsBlock, dstsBlock])
    ensures Adds(platform.buffers, old(platform.buffers), srcs + dsts)
    ensures err == 0 ==>
              platform.buffersEver == old(platform.buffersEver) + if NeedsMemory(world) then 2 * threads else 0
    ensures err == 0 <==> PreparationSucceeds(world, threads)
    ensures err == 0 && NeedsMemory(world) ==> Filled(srcs) && Filled(dsts)
  {
    hide Follows, Adds, BuffersAllocated, Filled;
    srcsBlock, dstsBlock, srcs, dsts := 0, 0, [], [];
    NoneAdded(platform.heap, platform.buffers);
    var needMem := AnyEnabled(world.memCount, world.memEnabled);
    ghost var log := platform.log;
    FollowsTwo(world, log, PowerVote, DeviceInfo);
    err := platform.Measure(PowerVote, world.powerErr, handles, []);
    if err != 0 {
      return;
    }
    err := platform.Measure(DeviceInfo, world.infoErr, [handles[0]], []);
    if err != 0 {
      return;
    }
    if needMem {
      err, srcsBlock, dstsBlock, srcs, dsts := AllocateMemory(platform, world, threads);
    }
  }

  /** Every enabled scenario, until one fails. */
  method RunScenarios(platform: Platform, world: World, handles: seq<int>, srcs: seq<int>, dsts: seq<int>)
    returns (err: int, hmx: seq<int>)
    requires handles != [] && forall i: nat :: i < |handles| ==> handles[i] in platform.sessions
    requires NeedsMemory(world) ==> forall i: nat :: i < |srcs + dsts| ==> (srcs + dsts)[i] in platform.buffers
    modifies platform`buffers, platform`buffersEver, platform`log
    ensures Follows(world, old(platform.log), platform.log,
                    [NullCalls, ComputeDispatch] + HmxPlan(world, world.hmxCount) + MemPlan(world, world.memCount),
                    err == 0)
    ensures Adds(platform.buffers, old(platform.buffers), hmx)
    ensures err == 0 <==> ScenariosSucceed(world)
    ensures err == 0 ==> platform.buffersEver == old(platform.buffersEver) + if NeedsHmx(world) then 3 else 0
  {
    hide Follows, HmxPlan, MemPlan;
    hmx := [];
    NoneAdded(platform.heap, platform.buffers);
    ghost var log, plan, rest := platform.log, HmxPlan(world, world.hmxCount), MemPlan(world, world.memCount);
    FollowsTwo(world, log, NullCalls, ComputeDispatch);
    err := platform.Measure(NullCalls, world.rpcErr, handles, []);
    if err != 0 {
      FollowsStopTwice(world, log, platform.log, [NullCalls, ComputeDispatch], plan, rest);
      return;
    }
    err := platform.Measure(ComputeDispatch, world.computeErr, handles, []);
    if err != 0 {
      FollowsStopTwice(world, log, platform.log, [NullCalls, ComputeDispatch], plan, rest);
      return;
    }
    ghost var reached := platform.log;
    err, hmx := RunHmx(platform, world, handles[0]);
    FollowsThen(world, log, reached, platform.log, [NullCalls, ComputeDispatch], plan, err == 0);
    if err != 0 {
      FollowsStop(world, log, platform.log, [NullCalls, ComputeDispatch] + plan, rest);
      return;
    }
    StillLive(old(platform.buffers), platform.buffers, hmx, srcs + dsts);
    reached := platform.log;
    err := RunMem(platform, world, handles, srcs, dsts);
    FollowsThen(world, log, reached, platform.log, [NullCalls, ComputeDispatch] + plan, rest, err == 0);
  }

  /** Everything between opening the sessions and cleaning up. */
  method Measurements(platform: Platform, world: World, threads: nat, handles: seq<int>)
    returns (err: int, srcsBlock: int, dstsBlock: int, srcs: seq<int>, dsts: seq<int>, hmx: seq<int>)
    requires 0 < threads == |handles| && forall i: nat :: i < threads ==> handles[i] in platform.sessions
    modifies platform`heap, platform`buffers, platform`buffersEver, platform`log
    ensures Follows(world, old(platform.log), platform.log, Plan(world), err == 0)
    ensures Adds(platform.heap, old(platform.heap), [srcsBlock, dstsBlock])
    ensures Adds(platform.buffers, old(platform.buffers), srcs + dsts + hmx)
    ensures err == 0 ==> platform.buffersEver == old(platform.buffersEver) + BuffersNeeded(world, threads)
    ensures err == 0 <==> PreparationSucceeds(world, threads) && ScenariosSucceed(world)
  {
    hide Follows, HmxPlan, MemPlan;
    ghost var log := platform.log;
    ghost var rest := [NullCalls, ComputeDispatch] + HmxPlan(world, world.hmxCount) + MemPlan(world, world.memCount);
    err, srcsBlock, dstsBlock, srcs, dsts := Prepare(platform, world, threads, handles);
    hmx := [];
    if err != 0 {
      FollowsStop(world, log, platform.log, [PowerVote, DeviceInfo], rest);
      assert srcs + dsts + hmx == srcs + dsts;
      return;
    }
    ghost var middle, reached := platform.buffers, platform.log;
    AllLive(old(platform.buffers), platform.buffers, srcs + dsts);
    err, hmx := RunScenarios(platform, world, handles, srcs, dsts);
    FollowsThen(world, log, reached, platform.log, [PowerVote, DeviceInfo], rest, err == 0);
    AddsTransitive(old(platform.buffers), middle, platform.buffers, srcs + dsts, hmx);
  }

  // ---------------------------------------------------------------------------------------------
  // Cleanup

  /** Frees what the first slot holds, if anything. */
  method FreeSlot(platform: Platform, id: int, ghost before: multiset<int>, ghost kept: seq<int>)
    requires Adds(platform.buffers, before, [id] + kept)
    modifies platform`buffers
    ensures Adds(platform.buffers, before, kept)
  {
    ghost var live := platform.buffers;
    if id != 0 {
      FirstLive(before, live, id, kept);
      platform.RpcmemFree(id);
    }
    AddsCancel(before, platform.buffers, live, [id], kept);
  }

  lemma FirstLive(before: multiset<int>, live: multiset<int>, id: int, kept: seq<int>)
    requires Adds(live, before, [id] + kept) && id != 0
    ensures id in live
  {
    assert ([id] + kept)[0] == id;
    AllLive(before, live, [id] + kept);
  }

  /** Frees whatever a list of slots holds, which must all be live. */
  method FreeSlots(platform: Platform, slots: seq<int>, ghost before: multiset<int>, ghost kept: seq<int>)
    requires Adds(platform.buffers, before, slots + kept)
    modifies platform`buffers
    ensures Adds(platform.buffers, before, kept)
  {
    var i := 0;
    assert slots[0..] == slots;
    while i < |slots|
      invariant i <= |slots| && Adds(platform.buffers, before, slots[i..] + kept)
    {
      FrontSlot(slots, kept, i);
      FreeSlot(platform, slots[i], before, slots[i + 1..] + kept);
      i := i + 1;
    }
    assert slots[i..] + kept == kept;
  }

  method CloseSlot(platform: Platform, handle: int, ghost before: multiset<int>, ghost kept: seq<int>)
    requires Adds(platform.sessions, before, [handle] + kept)
    modifies platform`sessions
    ensures Adds(platform.sessions, before, kept)
  {
    ghost var live := platform.sessions;
    if handle != 0 {
      FirstLive(before, live, handle, kept);
      platform.Close(handle);
    }
    AddsCancel(before, platform.sessions, live, [handle], kept);
  }

  method CloseSlots(platform: Platform, handles: seq<int>, ghost before: multiset<int>)
    requires Adds(platform.sessions, before, handles)
    modifies platform`sessions
    ensures platform.sessions == before
  {
    var i := 0;
    assert handles[0..] == handles;
    while i < |handles|
      invariant i <= |handles| && Adds(platform.sessions, before, handles[i..])
    {
      assert handles[i..] == [handles[i]] + handles[i + 1..];
      CloseSlot(platform, handles[i], before, handles[i + 1..]);
      i := i + 1;
    }
    AddsNothing(before, platform.sessions);
  }

  method FreeBlock(platform: Platform, block: int, ghost before: multiset<int>, ghost kept: seq<int>)
    requires Adds(platform.heap, before, [block] + kept)
    modifies platform`heap
    ensures Adds(platform.heap, before, kept)
  {
    ghost var live := platform.heap;
    AllLive(before, live, [block] + kept);
    platform.Free(block);
    AddsCancel(before, platform.heap, live, [block], kept);
  }

  method FreeBuffers(platform: Platform, srcs: seq<int>, dsts: seq<int>, hmx: seq<int>, ghost before: multiset<int>)
    requires Adds(platform.buffers, before, srcs + dsts + hmx)
    modifies platform`buffers
    ensures platform.buffers == before
  {
    assert srcs + dsts + hmx == srcs + (dsts + hmx);
    FreeSlots(platform, srcs, before, dsts + hmx);
    FreeSlots(platform, dsts, before, hmx);
    assert hmx + [] == hmx;
    FreeSlots(platform, hmx, before, []);
    AddsNothing(before, platform.buffers);
  }

  method FreeBlocks(platform: Platform, blocks: seq<int>, ghost before: multiset<int>)
    requires |blocks| == 4 && Adds(platform.heap, before, blocks)
    modifies platform`heap
    ensures platform.heap == before
  {
    FrontBlocks(blocks);
    FreeBlock(platform, blocks[0], before, blocks[1..]);
    FreeBlock(platform, blocks[1], before, blocks[2..]);
    FreeBlock(platform, blocks[2], before, blocks[3..]);
    FreeBlock(platform, blocks[3], before, []);
    AddsNothing(before, platform.heap);
  }

  lemma FrontBlocks(blocks: seq<int>)
    requires |blocks| == 4
    ensures blocks == [blocks[0]] + blocks[1..] && blocks[1..] == [blocks[1]] + blocks[2..]
    ensures blocks[2..] == [blocks[2]] + blocks[3..] && blocks[3..] == [blocks[3]] + []
  {
  }

  /** Everything the locals name is released, exactly once. */
  method Cleanup(platform: Platform, uri: int, handlesBlock: int, srcsBlock: int, dstsBlock: int,
                 handles: seq<int>, srcs: seq<int>, dsts: seq<int>, hmx: seq<int>,
                 ghost heap: multiset<int>, ghost buffers: multiset<int>, ghost sessions: multiset<int>)
    requires Adds(platform.heap, heap, [srcsBlock, dstsBlock, handlesBlock, uri])
    requires Adds(platform.buffers, buffers, srcs + dsts + hmx)
    requires Adds(platform.sessions, sessions, handles)
    modifies platform`heap, platform`buffers, platform`sessions
    ensures platform.heap == heap && platform.buffers == buffers && platform.sessions == sessions
  {
    FreeBuffers(platform, srcs, dsts, hmx, buffers);
    CloseSlots(platform, handles, sessions);
    FreeBlocks(platform, [srcsBlock, dstsBlock, handlesBlock, uri], heap);
  }

  // ---------------------------------------------------------------------------------------------
  // A whole run

  method MakeUri(platform: Platform, world: World) returns (err: int, uri: int)
    modifies platform`heap
    ensures Adds(platform.heap, old(platform.heap), [uri])
    ensures err == 0 <==> world.archErr == 0 && world.uri != 0
    ensures err != 0 ==> platform.heap == old(platform.heap)
  {
    if world.archErr != 0 {
      return world.archErr, 0;
    }
    uri := platform.Malloc(world.uri);
    err := 0;
    if uri == 0 {
      err := -ENOMEM;
      AddsZero(old(platform.heap), platform.heap);
    }
  }

  /** From opening the sessions to the cleanup block. */
  method Body(platform: Platform, world: World, threads: nat)
    returns (err: int, handlesBlock: int, srcsBlock: int, dstsBlock: int,
             handles: seq<int>, srcs: seq<int>, dsts: seq<int>, hmx: seq<int>)
    requires threads > 0
    modifies platform
    ensures Adds(platform.heap, old(platform.heap), [srcsBlock, dstsBlock, handlesBlock])
    ensures Adds(platform.buffers, old(platform.buffers), srcs + dsts + hmx)
    ensures Adds(platform.sessions, old(platform.sessions), handles)
    ensures Follows(world, old(platform.log), platform.log, Plan(world), err == 0)
    ensures err == 0 <==> BodySucceeds(world, threads)
    ensures err == 0 ==> platform.sessionsEver == old(platform.sessionsEver) + threads
    ensures err == 0 ==> platform.buffersEver == old(platform.buffersEver) + BuffersNeeded(world, threads)
  {
    hide Follows, Plan;
    FollowsNone(world, platform.log, Plan(world));
    ghost var heap, buffers, sessions := platform.heap, platform.buffers, platform.sessions;
    err, handlesBlock, handles := OpenSessions(platform, world, threads);
    if err != 0 {
      srcsBlock, dstsBlock, srcs, dsts, hmx := 0, 0, [], [], [];
      AddsZeros(heap, platform.heap, buffers, handlesBlock);
      return;
    }
    ghost var middle := platform.heap;
    AllLive(sessions, platform.sessions, handles);
    err, srcsBlock, dstsBlock, srcs, dsts, hmx := Measurements(platform, world, threads, handles);
    AddsSessionBlocks(heap, middle, platform.heap, handlesBlock, srcsBlock, dstsBlock);
  }

  /** Everything from the first session on, cleanup included, with the URI already made. */
  method RunAndClean(platform: Platform, world: World, threads: nat, uri: int, ghost heap: multiset<int>)
    returns (err: int)
    requires threads > 0 && Adds(platform.heap, heap, [uri])
    modifies platform
    ensures platform.heap == heap && platform.buffers == old(platform.buffers)
    ensures platform.sessions == old(platform.sessions)
    ensures Follows(world, old(platform.log), platform.log, Plan(world), err == 0)
    ensures err == 0 <==> BodySucceeds(world, threads)
    ensures err == 0 ==> platform.sessionsEver == old(platform.sessionsEver) + threads
    ensures err == 0 ==> platform.buffersEver == old(platform.buffersEver) + BuffersNeeded(world, threads)
  {
    hide Follows, Plan;
    ghost var middle, buffers, sessions := platform.heap, platform.buffers, platform.sessions;
    var handlesBlock, srcsBlock, dstsBlock, handles, srcs, dsts, hmx;
    err, handlesBlock, srcsBlock, dstsBlock, handles, srcs, dsts, hmx := Body(platform, world, threads);
    AddsBlocks(heap, middle, platform.heap, uri, srcsBlock, dstsBlock, handlesBlock);
    Cleanup(platform, uri, handlesBlock, srcsBlock, dstsBlock, handles, srcs, dsts, hmx, heap, buffers, sessions);
  }

  /**
   * A whole run: whatever fails and wherever, every block, buffer and session acquired is released
   * exactly once and nothing else is, and the exit status is zero exactly when nothing needed failed.
   */
  method RunProgram(platform: Platform, world: World, threads: nat) returns (status: int)
    requires threads > 0
    modifies platform
    ensures platform.heap == old(platform.heap)
    ensures platform.buffers == old(platform.buffers)
    ensures platform.sessions == old(platform.sessions)
    ensures status == 0 <==> AllSucceed(world, threads)
    ensures status == 2 <==> world.sizeTooLarge
    ensures Follows(world, old(platform.log), platform.log, Plan(world), status == 0)
    ensures status == 0 ==> platform.sessionsEver == old(platform.sessionsEver) + threads
    ensures status == 0 ==> platform.buffersEver == old(platform.buffersEver) + BuffersNeeded(world, threads)
    ensures 0 <= status <= 2
  {
    hide Follows, Plan;
    FollowsNone(world, platform.log, Plan(world));
    if world.sizeTooLarge {
      return 2;
    }
    if world.unsignedPdRefused {
      return 1;
    }
    var err, uri := MakeUri(platform, world);
    if err != 0 {
      return 1;
    }
    err := RunAndClean(platform, world, threads, uri, old(platform.heap));
    return if err != 0 then 1 else 0;
  }
}
