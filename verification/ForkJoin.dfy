/**
 * Fork and join over private slots. The main thread creates workers until all exist or a creation
 * fails, joins exactly those it created, and only then goes on to use and free the slots. Between
 * any two of its actions every created worker may take any number of its own atomic actions.
 */
module ForkJoin {

  /**
   * next performs one atomic action of worker i on its own slot, left counts the actions still to
   * come, and createErr is the result of creating worker i.
   */
  datatype Workers<!S> = Workers(
    n: nat,
    init: nat -> S,
    next: (nat, S) -> S,
    left: (nat, S) -> nat,
    createErr: nat -> int)

  ghost predicate Sound<S(!new)>(w: Workers<S>) {
    forall i: nat, s: S :: w.left(i, s) > 0 ==> w.left(i, w.next(i, s)) < w.left(i, s)
  }

  /** Worker i alone, from slot s to its end. */
  ghost function Finish<S(!new)>(w: Workers<S>, i: nat, s: S): S
    requires Sound(w)
    decreases w.left(i, s)
  {
    if w.left(i, s) == 0 then s else Finish(w, i, w.next(i, s))
  }

  datatype Phase = Creating | Joining | Done

  datatype Machine<S> = Machine(phase: Phase, created: nat, joined: nat, err: int, slots: seq<S>)

  datatype Step = Main | Worker(i: nat)

  function Initial<S>(w: Workers<S>): Machine<S> {
    Machine(Creating, 0, 0, 0, seq(w.n, i requires 0 <= i < w.n => w.init(i)))
  }

  /** A join waits for its worker; a worker runs whenever it exists and has actions left, in any phase. */
  predicate Enabled<S>(w: Workers<S>, m: Machine<S>, step: Step)
    requires m.created <= |m.slots|
  {
    match step
    case Main =>
      (m.phase == Joining && m.joined < m.created ==> w.left(m.joined, m.slots[m.joined]) == 0) && m.phase != Done
    case Worker(i) =>
      i < m.created && w.left(i, m.slots[i]) > 0
  }

  function Apply<S>(w: Workers<S>, m: Machine<S>, step: Step): Machine<S>
    requires m.created <= |m.slots| && Enabled(w, m, step)
  {
    match step
    case Main =>
      if m.phase == Creating then
        if m.created == w.n then m.(phase := Joining)
        else if w.createErr(m.created) != 0 then m.(phase := Joining, err := w.createErr(m.created))
        else m.(created := m.created + 1)
      else if m.joined < m.created then m.(joined := m.joined + 1)
      else m.(phase := Done)
    case Worker(i) =>
      m.(slots := m.slots[i := w.next(i, m.slots[i])])
  }

  /** The least index whose creation fails, or n. */
  function CreatedCount(createErr: nat -> int, n: nat): (k: nat)
    ensures k <= n && (forall j: nat :: j < k ==> createErr(j) == 0)
    ensures k < n ==> createErr(k) != 0
  {
    if n == 0 then 0
    else
      var k := CreatedCount(createErr, n - 1);
      if k < n - 1 || createErr(n - 1) != 0 then k else n
  }

  /** Workers 0 to k-1 run one after the other, the others never. */
  ghost function Sequential<S(!new)>(w: Workers<S>, k: nat): seq<S>
    requires Sound(w)
  {
    seq(w.n, i requires 0 <= i < w.n => if i < k then Finish(w, i, w.init(i)) else w.init(i))
  }

  ghost function Final<S(!new)>(w: Workers<S>): Machine<S>
    requires Sound(w)
  {
    var k := CreatedCount(w.createErr, w.n);
    Machine(Done, k, k, if k < w.n then w.createErr(k) else 0, Sequential(w, k))
  }

  ghost predicate Inv<S(!new)>(w: Workers<S>, m: Machine<S>)
    requires Sound(w)
  {
    var k := CreatedCount(w.createErr, w.n);
    && |m.slots| == w.n && m.joined <= m.created <= k
    && (forall i: nat :: i < w.n ==> Finish(w, i, m.slots[i]) == Finish(w, i, w.init(i)))
    && (forall i: nat :: m.created <= i < w.n ==> m.slots[i] == w.init(i))
    && (forall i: nat :: i < m.joined ==> w.left(i, m.slots[i]) == 0)
    && (m.phase == Creating ==> m.joined == 0 && m.err == 0)
    && (m.phase != Creating ==> m.created == k && m.err == if k < w.n then w.createErr(k) else 0)
    && (m.phase == Done ==> m.joined == m.created)
  }

  lemma InitialInv<S(!new)>(w: Workers<S>)
    requires Sound(w)
    ensures Inv(w, Initial(w))
  {
  }

  /** Every action of main and of any worker keeps the invariant. */
  lemma StepInv<S(!new)>(w: Workers<S>, m: Machine<S>, step: Step)
    requires Sound(w) && Inv(w, m) && Enabled(w, m, step)
    ensures Inv(w, Apply(w, m, step))
  {
  }

  /** Once main goes on, nobody is still running: no worker can touch a freed slot. */
  lemma QuietWhenDone<S(!new)>(w: Workers<S>, m: Machine<S>, step: Step)
    requires Sound(w) && Inv(w, m) && m.phase == Done
    ensures !Enabled(w, m, step)
    ensures m == Final(w)
  {
    var k := CreatedCount(w.createErr, w.n);
    forall i: nat | i < w.n
      ensures m.slots[i] == Sequential(w, k)[i]
    {
      if i < k {
        assert w.left(i, m.slots[i]) == 0;
        assert Finish(w, i, m.slots[i]) == m.slots[i];
      }
    }
    assert m.slots == Sequential(w, k);
  }

  /** There is no deadlock. */
  lemma Progress<S(!new)>(w: Workers<S>, m: Machine<S>)
    requires Sound(w) && Inv(w, m) && m.phase != Done
    ensures Enabled(w, m, Main) || Enabled(w, m, Worker(m.joined))
  {
  }

  ghost function WorkLeft<S>(w: Workers<S>, slots: seq<S>, k: nat): nat
    requires k <= |slots|
  {
    if k == 0 then 0 else WorkLeft(w, slots, k - 1) + w.left(k - 1, slots[k - 1])
  }

  ghost function StepsLeft<S>(w: Workers<S>, m: Machine<S>): int
    requires |m.slots| == w.n
  {
    WorkLeft(w, m.slots, w.n)
    + match m.phase
      case Creating => 2 * w.n + 2 - m.created
      case Joining => w.n + 1 - m.joined
      case Done => 0
  }

  lemma {:induction false} WorkDecreases<S>(w: Workers<S>, slots: seq<S>, i: nat, s: S, k: nat)
    requires i < |slots| && k <= |slots|
    ensures WorkLeft(w, slots[i := s], k)
      == WorkLeft(w, slots, k) + if i < k then w.left(i, s) - w.left(i, slots[i]) else 0
  {
    if k == 0 {
    } else {
      WorkDecreases(w, slots, i, s, k - 1);
    }
  }

  /** Every action brings the end nearer, so every schedule is finite. */
  lemma StepDecreases<S(!new)>(w: Workers<S>, m: Machine<S>, step: Step)
    requires Sound(w) && Inv(w, m) && Enabled(w, m, step)
    ensures 0 <= StepsLeft(w, Apply(w, m, step)) < StepsLeft(w, m)
  {
    if step.Worker? {
      WorkDecreases(w, m.slots, step.i, w.next(step.i, m.slots[step.i]), w.n);
    }
  }

  /** m' is reached from m by the given schedule of actions. */
  ghost predicate Run<S(!new)>(w: Workers<S>, m: Machine<S>, steps: seq<Step>, m': Machine<S>)
    requires Sound(w) && Inv(w, m)
    decreases |steps|
  {
    if steps == [] then m == m'
    else
      && Enabled(w, m, steps[0])
      && (StepInv(w, m, steps[0]); Run(w, Apply(w, m, steps[0]), steps[1..], m'))
  }

  lemma {:induction false} RunBounded<S(!new)>(w: Workers<S>, m: Machine<S>, steps: seq<Step>, m': Machine<S>)
    requires Sound(w) && Inv(w, m) && Run(w, m, steps, m')
    ensures Inv(w, m') && |steps| + StepsLeft(w, m') <= StepsLeft(w, m)
    decreases |steps|
  {
    if steps == [] {
    } else {
      StepInv(w, m, steps[0]);
      StepDecreases(w, m, steps[0]);
      RunBounded(w, Apply(w, m, steps[0]), steps[1..], m');
    }
  }

  /**
   * Whatever the interleaving, main ends in the one state in which exactly the workers created
   * before the first creation failure have run to their end, each as if alone.
   */
  lemma EveryScheduleAgrees<S(!new)>(w: Workers<S>, steps: seq<Step>, m: Machine<S>)
    requires Sound(w) && Inv(w, Initial(w)) && Run(w, Initial(w), steps, m)
    ensures |steps| <= StepsLeft(w, Initial(w))
    ensures m.created <= |m.slots|
    ensures m.phase == Done ==> m == Final(w) && forall step :: !Enabled(w, m, step)
    ensures m.phase != Done ==> Enabled(w, m, Main) || Enabled(w, m, Worker(m.joined))
  {
    RunBounded(w, Initial(w), steps, m);
    if m.phase == Done {
      forall step
        ensures !Enabled(w, m, step)
      {
        QuietWhenDone(w, m, step);
      }
      QuietWhenDone(w, m, Main);
    } else {
      Progress(w, m);
    }
    StepsLeftNonNegative(w, m);
  }

  lemma StepsLeftNonNegative<S(!new)>(w: Workers<S>, m: Machine<S>)
    requires Sound(w) && Inv(w, m)
    ensures StepsLeft(w, m) >= 0
  {
  }

  /** The scheduler's choices, numbered: a worker, or main after them all. */
  function Choice<S>(m: Machine<S>, i: nat): Step {
    if i == m.created then Main else Worker(i)
  }

  /** Main and the workers under an arbitrary scheduler. */
  method RunThreads<S(!new)>(w: Workers<S>) returns (m: Machine<S>)
    requires Sound(w)
    ensures m == Final(w)
  {
    m := Initial(w);
    InitialInv(w);
    while m.phase != Done
      invariant Inv(w, m)
      decreases StepsLeft(w, m)
    {
      Progress(w, m);
      assert Enabled(w, m, Choice(m, m.created)) || Enabled(w, m, Choice(m, m.joined));
      var i: nat :| i <= m.created && Enabled(w, m, Choice(m, i));
      var step := Choice(m, i);
      StepInv(w, m, step);
      StepDecreases(w, m, step);
      m := Apply(w, m, step);
    }
    QuietWhenDone(w, m, Main);
  }

  /** A single worker runs inside main, from its first action to its last. */
  method RunAlone<S(!new)>(w: Workers<S>, i: nat) returns (s: S)
    requires Sound(w)
    ensures s == Finish(w, i, w.init(i))
  {
    s := w.init(i);
    while w.left(i, s) > 0
      invariant Finish(w, i, s) == Finish(w, i, w.init(i))
      decreases w.left(i, s)
    {
      s := w.next(i, s);
    }
  }
}
