/** Adding a fixed vector to every vector: its effect on the checksum is constant only for zero. */
module VectorShifts {
  import opened Words
  import opened Checksum
  import opened Vectors
  import opened XorBits
  import opened StateParts

  function Elements(v: seq<Word>): seq<DWord>
    requires |v| <= LANES
  {
    seq(|v|, i requires 0 <= i < |v| => WordElement(v[i], i))
  }

  /** The state of the fold after the first words of a vector. */
  function State(v: seq<Word>): DWord
    requires |v| <= LANES
  {
    Fold(FNV_OFFSET, Elements(v))
  }

  function Shifted(v: seq<Word>, r: Vector): (s: seq<Word>)
    requires |v| <= LANES
    ensures |s| == |v|
  {
    seq(|v|, i requires 0 <= i < |v| => (v[i] + r[i]) % WORD32)
  }

  lemma StateSnoc(v: seq<Word>, w: Word, r: Vector)
    requires |v| < LANES
    ensures State(v + [w]) == Step(State(v), WordElement(w, |v|))
    ensures State(Shifted(v + [w], r)) == Step(State(Shifted(v, r)), WordElement((w + r[|v|]) % WORD32, |v|))
  {
    assert Elements(v + [w])[..|v|] == Elements(v);
    var s := Shifted(v + [w], r);
    assert s == Shifted(v, r) + [(w + r[|v|]) % WORD32];
    assert Elements(s)[..|v|] == Elements(Shifted(v, r));
  }

  lemma StateOfVector(x: Vector, r: Vector)
    ensures VectorChecksum(x) == State(x) && VectorChecksum(VAdd(r, x)) == State(Shifted(x, r))
  {
    assert Elements(x) == WordElements(x);
    assert VAdd(r, x) == Shifted(x, r);
    assert Elements(Shifted(x, r)) == WordElements(VAdd(r, x));
  }

  /** Some prefix of length k does not just have bit 31 of its state flipped by the shift. */
  lemma NoFlippedPrefix(r: Vector, k: nat) returns (p: seq<Word>)
    requires k < LANES
    ensures |p| == k && !Close(State(p), State(Shifted(p, r)), 1)
  {
    if k == 0 {
      p := [];
      assert Shifted(p, r) == p;
    } else {
      var q := seq(k - 1, _ => 0);
      var w := NoUniformFlip(State(q), State(Shifted(q, r)), k - 1, r[k - 1]);
      p := q + [w];
      StateSnoc(q, w, r);
    }
  }

  lemma LastNonzero(r: Vector) returns (k: nat)
    requires r != ZERO
    ensures k < LANES && r[k] != 0 && forall i: nat :: k < i < LANES ==> r[i] == 0
  {
    k := LANES - 1;
    while k > 0 && r[k] == 0
      invariant k < LANES && forall i: nat :: k < i < LANES ==> r[i] == 0
    {
      k := k - 1;
    }
  }

  /** Adding r to a vector changes its checksum by the same mask c, whatever the vector is. */
  ghost predicate Masks(r: Vector, c: DWord) {
    forall x: Vector :: MasksAt(r, c, x)
  }

  ghost predicate MasksAt(r: Vector, c: DWord, x: Vector) {
    XorDWord(VectorChecksum(VAdd(r, x)), VectorChecksum(x)) == c
  }

  lemma MasksTwice(r: Vector, c: DWord)
    requires Masks(r, c)
    ensures Masks(VAdd(r, r), 0)
  {
    forall x: Vector
      ensures MasksAt(VAdd(r, r), 0, x)
    {
      var y := VAdd(r, x);
      AddTwice(r, x);
      var a, b, d := VectorChecksum(VAdd(r, y)), VectorChecksum(y), VectorChecksum(x);
      assert MasksAt(r, c, y) && MasksAt(r, c, x);
      XorCommutes(b, d);
      XorSame(a, d, b);
      XorSelf(d);
    }
  }

  lemma AddTwice(r: Vector, x: Vector)
    ensures VAdd(VAdd(r, r), x) == VAdd(r, VAdd(r, x))
  {
    forall l: nat | l < LANES
      ensures VAdd(VAdd(r, r), x)[l] == VAdd(r, VAdd(r, x))[l]
    {
      var p: nat, q: nat := r[l], x[l];
      ModAddLeft(p + p, q, WORD32);
      ModAddLeft(p + q, p, WORD32);
    }
  }

  /** After the last shifted lane nothing differs any more, so the states agree there already. */
  lemma {:induction false} PrefixAgrees(s: Vector, p: seq<Word>)
    requires Masks(s, 0) && |p| <= LANES && forall i: nat :: |p| <= i < LANES ==> s[i] == 0
    ensures State(p) == State(Shifted(p, s))
    decreases LANES - |p|
  {
    hide Xor, Step;
    if |p| == LANES {
      var x: Vector := p;
      StateOfVector(x, s);
      assert MasksAt(s, 0, x);
      XorZero(VectorChecksum(VAdd(s, x)), VectorChecksum(x));
    } else {
      PrefixAgrees(s, p + [0]);
      StateSnoc(p, 0, s);
      StepSame(State(p), State(Shifted(p, s)), WordElement(0, |p|));
    }
  }

  /** Words zero and -r right after a prefix of an unnoticed shift whose last shifted lane comes next. */
  lemma LastShiftedLane(s: Vector, p: seq<Word>)
    requires Masks(s, 0) && |p| < LANES && s[|p|] != 0 && forall i: nat :: |p| < i < LANES ==> s[i] == 0
    ensures s[|p|] == HALF && Close(State(p), State(Shifted(p, s)), 1)
  {
    var l, r := |p|, s[|p|];
    WordAgrees(s, p, 0);
    WordAgrees(s, p, WORD32 - r);
    TwoWords(State(p), State(Shifted(p, s)), l, r);
  }

  lemma WordAgrees(s: Vector, p: seq<Word>, w: Word)
    requires Masks(s, 0) && |p| < LANES && forall i: nat :: |p| < i < LANES ==> s[i] == 0
    ensures Step(State(p), WordElement(w, |p|))
      == Step(State(Shifted(p, s)), WordElement((w + s[|p|]) % WORD32, |p|))
  {
    var q := p + [w];
    assert |q| == |p| + 1;
    PrefixAgrees(s, q);
    StateSnoc(p, w, s);
  }

  /** A shift that never changes the checksum is zero. */
  lemma UnnoticedShift(s: Vector)
    requires Masks(s, 0)
    ensures s == ZERO
  {
    if s != ZERO {
      var k := LastNonzero(s);
      var p := NoFlippedPrefix(s, k);
      LastShiftedLane(s, p);
    }
  }

  ghost predicate HalfLanes(r: Vector) {
    forall i: nat :: i < LANES ==> r[i] == 0 || r[i] == HALF
  }

  /** Shifting by 2^31 never reaches the bits below. */
  lemma {:induction false} LowAgrees(r: Vector, p: seq<Word>)
    requires HalfLanes(r) && |p| <= LANES
    ensures Low31(State(p)) == Low31(State(Shifted(p, r)))
    decreases |p|
  {
    if p == [] {
      assert Shifted(p, r) == p;
    } else {
      var q, w := p[..|p| - 1], p[|p| - 1];
      assert p == q + [w];
      LowAgrees(r, q);
      StateSnoc(q, w, r);
      StepLow(State(q), State(Shifted(q, r)), |q|, w, r[|q|]);
    }
  }

  lemma LastLaneClose(r: Vector, c: DWord, p: seq<Word>, l: nat)
    requires HalfLanes(r) && Masks(r, c) && |p| == l == LANES - 1
    ensures Close(State(p), State(Shifted(p, r)), r[l] / HALF)
  {
    hide Xor, Close;
    var s, t, b := State(p), State(Shifted(p, r)), r[l] / HALF;
    forall w: Word
      ensures LaneMask(s, t, l, b, w) == c
    {
      var x: Vector := p + [w];
      assert MasksAt(r, c, x);
      StateOfVector(x, r);
      StateSnoc(p, w, r);
      assert r[l] == b * HALF;
    }
    LowAgrees(r, p);
    CloseBeforeMask(s, t, l, b, c);
  }

  lemma CloseOneBack(r: Vector, p: seq<Word>)
    requires HalfLanes(r) && |p| < LANES && Close(State(p + [0]), State(Shifted(p + [0], r)), 0)
    ensures Close(State(p), State(Shifted(p, r)), r[|p|] / HALF)
  {
    hide Xor, XorDWord, Step, Close;
    var b := r[|p|] / HALF;
    StateSnoc(p, 0, r);
    LowWord(0, b);
    assert r[|p|] == b * HALF;
    CloseBefore(State(p), State(Shifted(p, r)), |p|, b);
  }

  /** Before the last lane that is shifted, and at every lane after it, the states are close. */
  lemma {:induction false} PrefixClose(r: Vector, c: DWord, p: seq<Word>)
    requires HalfLanes(r) && Masks(r, c) && |p| < LANES && forall i: nat :: |p| < i < LANES ==> r[i] == 0
    ensures Close(State(p), State(Shifted(p, r)), r[|p|] / HALF)
    decreases LANES - |p|
  {
    if |p| == LANES - 1 {
      LastLaneClose(r, c, p, |p|);
    } else {
      var q := p + [0];
      assert |q| == |p| + 1 && r[|q|] == 0;
      PrefixClose(r, c, q);
      CloseOneBack(r, p);
    }
  }

  /** A shift that changes every checksum by the same mask is zero. */
  lemma ConstantMask(r: Vector, c: DWord)
    requires Masks(r, c)
    ensures r == ZERO
  {
    MasksTwice(r, c);
    UnnoticedShift(VAdd(r, r));
    forall i: nat | i < LANES
      ensures r[i] == 0 || r[i] == HALF
    {
      assert VAdd(r, r)[i] == 0;
    }
    if r != ZERO {
      var k := LastNonzero(r);
      var p := NoFlippedPrefix(r, k);
      PrefixClose(r, c, p);
    }
  }
}
