/** Exactly which changes of the eight accumulators the accumulator checksum cannot see. */
module BlindSpots {
  import opened Words
  import opened Checksum
  import opened Vectors
  import opened XorBits
  import opened VectorShifts

  predicate Sampled(j: nat) {
    j == 0 || j == 3 || j == 5 || j == 7
  }

  predicate Unsampled(j: nat) {
    j == 1 || j == 2 || j == 4 || j == 6
  }

  predicate SameSampled(a: Accumulators, b: Accumulators) {
    a[0] == b[0] && a[3] == b[3] && a[5] == b[5] && a[7] == b[7]
  }

  /** Among accumulators that agree where they are sampled, the checksum is as good as that of the total. */
  lemma OnlyTotalSeen(a: Accumulators, b: Accumulators)
    requires SameSampled(a, b)
    ensures AccumulatorChecksum(a) == AccumulatorChecksum(b) <==> VectorChecksum(Total(a)) == VectorChecksum(Total(b))
  {
    XorChainInjective(VectorChecksum(Total(a)), VectorChecksum(Total(b)), VectorChecksum(a[0]), VectorChecksum(a[3]),
                      VectorChecksum(a[5]), VectorChecksum(a[7]));
  }

  /** Whatever happened to the unsampled accumulators: with totals equal outside one word, exactly the total decides. */
  lemma UnsampledChangeDetected(a: Accumulators, b: Accumulators, k: nat)
    requires SameSampled(a, b) && k < LANES && AgreeOutside(Total(a), Total(b), k, k + 1)
    ensures AccumulatorChecksum(a) == AccumulatorChecksum(b) <==> Total(a) == Total(b)
  {
    OnlyTotalSeen(a, b);
    VectorSingleWordDetected(Total(a), Total(b), k);
  }

  lemma TotalOfPair(a: Accumulators, i: nat, j: nat, x: Vector, y: Vector, l: nat)
    requires i < 8 && j < 8 && i != j && l < LANES
    ensures Total(a[i := x][j := y])[l]
      == (LaneSum(a, l) - Lane(a[i], l) - Lane(a[j], l) + VAdd(x, y)[l]) % WORD32
  {
    LaneSumUpdate(a, i, x, l);
    LaneSumUpdate(a[i := x], j, y, l);
    ModAddLeft(Lane(x, l) + Lane(y, l), LaneSum(a, l) - Lane(a[i], l) - Lane(a[j], l), WORD32);
  }

  /** The total follows the sum of any two accumulators that are replaced, word by word. */
  lemma PairTotal(a: Accumulators, i: nat, j: nat, x: Vector, y: Vector, l: nat)
    requires i < 8 && j < 8 && i != j && l < LANES
    ensures Total(a[i := x][j := y])[l] == Total(a)[l] <==> VAdd(x, y)[l] == VAdd(a[i], a[j])[l]
  {
    TotalOfPair(a, i, j, x, y, l);
    TotalOfPair(a, i, j, a[i], a[j], l);
    assert a[i := a[i]][j := a[j]] == a;
    var rest := LaneSum(a, l) - Lane(a[i], l) - Lane(a[j], l);
    WrappedSumInjective(rest, VAdd(x, y)[l], VAdd(a[i], a[j])[l]);
  }

  /**
   * Replacing any two unsampled accumulators by others whose sum differs at most in word k goes
   * unnoticed exactly when the sum is the same.
   */
  lemma TransferUndetectedIff(a: Accumulators, i: nat, j: nat, x: Vector, y: Vector, k: nat)
    requires Unsampled(i) && Unsampled(j) && i != j
    requires k < LANES && AgreeOutside(VAdd(a[i], a[j]), VAdd(x, y), k, k + 1)
    ensures AccumulatorChecksum(a[i := x][j := y]) == AccumulatorChecksum(a) <==> VAdd(x, y) == VAdd(a[i], a[j])
  {
    var b: Accumulators := a[i := x][j := y];
    forall l: nat | l < LANES
      ensures Total(b)[l] == Total(a)[l] <==> VAdd(x, y)[l] == VAdd(a[i], a[j])[l]
    {
      PairTotal(a, i, j, x, y, l);
    }
    UnsampledChangeDetected(a, b, k);
    if VAdd(x, y)[k] == VAdd(a[i], a[j])[k] {
      assert VAdd(x, y) == VAdd(a[i], a[j]);
      assert Total(b) == Total(a);
    }
  }

  /** One unit moved from accumulator 1 to accumulator 6. */
  lemma TransferWitness()
    ensures var a: Accumulators := ZEROS; var b: Accumulators := a[1 := Splat(WORD32 - 1)][6 := Splat(1)];
      a != b && AccumulatorChecksum(a) == AccumulatorChecksum(b)
  {
    var a: Accumulators := ZEROS;
    assert VAdd(Splat(WORD32 - 1), Splat(1)) == VAdd(a[1], a[6]);
    TransferUndetectedIff(a, 1, 6, Splat(WORD32 - 1), Splat(1), 0);
    assert Splat(1)[0] != ZERO[0];
  }

  /** The wrapping sum of all accumulators but one. */
  function Rest(a: Accumulators, j: nat): Vector
    requires j < 8
  {
    seq(LANES, l requires 0 <= l < LANES => (LaneSum(a, l) - Lane(a[j], l)) % WORD32)
  }

  lemma TotalIsRest(a: Accumulators, j: nat, x: Vector)
    requires j < 8
    ensures Total(a[j := x]) == VAdd(Rest(a, j), x)
  {
    forall l: nat | l < LANES
      ensures Total(a[j := x])[l] == VAdd(Rest(a, j), x)[l]
    {
      LaneSumUpdate(a, j, x, l);
      ModAddLeft(LaneSum(a, l) - Lane(a[j], l), Lane(x, l), WORD32);
    }
  }

  function Mix(t: DWord, p: DWord, q: DWord, r: DWord, s: DWord): DWord {
    XorDWord(XorDWord(XorDWord(XorDWord(t, p), q), r), s)
  }

  lemma MixSwap01(t: DWord, p: DWord, q: DWord, r: DWord, s: DWord)
    ensures Mix(t, p, q, r, s) == Mix(t, q, p, r, s)
  {
    XorSwap(t, p, q);
  }

  lemma MixSwap12(t: DWord, p: DWord, q: DWord, r: DWord, s: DWord)
    ensures Mix(t, p, q, r, s) == Mix(t, p, r, q, s)
  {
    XorSwap(XorDWord(t, p), q, r);
  }

  lemma MixSwap23(t: DWord, p: DWord, q: DWord, r: DWord, s: DWord)
    ensures Mix(t, p, q, r, s) == Mix(t, p, q, s, r)
  {
    XorSwap(XorDWord(XorDWord(t, p), q), r, s);
  }

  /** What is mixed in unchanged decides nothing. */
  lemma MixDecided(t: DWord, u: DWord, p: DWord, v: DWord, q: DWord, r: DWord, s: DWord)
    ensures Mix(t, p, q, r, s) == Mix(u, v, q, r, s) <==> XorDWord(t, p) == XorDWord(u, v)
  {
    XorInjective(XorDWord(t, p), XorDWord(u, v), q);
    XorInjective(XorDWord(XorDWord(t, p), q), XorDWord(XorDWord(u, v), q), r);
    XorInjective(XorDWord(XorDWord(XorDWord(t, p), q), r), XorDWord(XorDWord(XorDWord(u, v), q), r), s);
  }

  /** The same, with the changed checksum in any of the four places. */
  lemma MixDecidedAt(t: DWord, u: DWord, p: DWord, v: DWord, q: DWord, r: DWord, s: DWord)
    ensures Mix(t, q, p, r, s) == Mix(u, q, v, r, s) <==> XorDWord(t, p) == XorDWord(u, v)
    ensures Mix(t, q, r, p, s) == Mix(u, q, r, v, s) <==> XorDWord(t, p) == XorDWord(u, v)
    ensures Mix(t, q, r, s, p) == Mix(u, q, r, s, v) <==> XorDWord(t, p) == XorDWord(u, v)
  {
    MixDecided(t, u, p, v, q, r, s);
    MixSwap01(t, q, p, r, s);
    MixSwap01(u, q, v, r, s);
    MixSwap12(t, q, r, p, s);
    MixSwap12(u, q, r, v, s);
    MixSwap23(t, q, r, s, p);
    MixSwap23(u, q, r, s, v);
  }

  lemma ChecksumIsMix(a: Accumulators)
    ensures AccumulatorChecksum(a) == Mix(VectorChecksum(Total(a)), VectorChecksum(a[0]), VectorChecksum(a[3]),
                                          VectorChecksum(a[5]), VectorChecksum(a[7]))
  {
  }

  /** A change of a sampled accumulator is unnoticed exactly when it changes its own checksum and the total's alike. */
  lemma SampledChange(a: Accumulators, j: nat, x: Vector)
    requires Sampled(j)
    ensures AccumulatorChecksum(a[j := x]) == AccumulatorChecksum(a)
      <==> XorDWord(VectorChecksum(Total(a[j := x])), VectorChecksum(x))
           == XorDWord(VectorChecksum(Total(a)), VectorChecksum(a[j]))
  {
    var b: Accumulators := a[j := x];
    ChecksumIsMix(a);
    ChecksumIsMix(b);
    var t, u, p, v := VectorChecksum(Total(b)), VectorChecksum(Total(a)), VectorChecksum(x), VectorChecksum(a[j]);
    var c0, c3, c5, c7 := VectorChecksum(a[0]), VectorChecksum(a[3]), VectorChecksum(a[5]), VectorChecksum(a[7]);
    if j == 0 {
      MixDecided(t, u, p, v, c3, c5, c7);
    } else if j == 3 {
      MixDecidedAt(t, u, p, v, c0, c5, c7);
    } else if j == 5 {
      MixDecidedAt(t, u, p, v, c0, c3, c7);
    } else {
      MixDecidedAt(t, u, p, v, c0, c3, c5);
    }
  }

  predicate Unnoticed(a: Accumulators, j: nat, x: Vector)
    requires j < 8
  {
    AccumulatorChecksum(a[j := x]) == AccumulatorChecksum(a)
  }

  lemma UnnoticedMeansMasked(a: Accumulators, j: nat, x: Vector)
    requires Sampled(j)
    ensures Unnoticed(a, j, x)
      <==> MasksAt(Rest(a, j), XorDWord(VectorChecksum(Total(a)), VectorChecksum(a[j])), x)
  {
    SampledChange(a, j, x);
    TotalIsRest(a, j, x);
  }

  lemma ZeroMasks(x: Vector)
    ensures VAdd(ZERO, x) == x && MasksAt(ZERO, 0, x)
  {
    assert VAdd(ZERO, x) == x;
    XorSelf(VectorChecksum(x));
  }

  lemma ZeroRestUnnoticed(a: Accumulators, j: nat, x: Vector)
    requires Sampled(j) && Rest(a, j) == ZERO
    ensures Unnoticed(a, j, x)
  {
    TotalIsRest(a, j, a[j]);
    assert a[j := a[j]] == a;
    ZeroMasks(x);
    ZeroMasks(a[j]);
    UnnoticedMeansMasked(a, j, x);
  }

  /**
   * What a sampled accumulator holds goes unnoticed, whatever it is changed to, exactly when all the
   * others sum to zero in every lane: then its own checksum cancels that of the total.
   */
  lemma SampledUnnoticedIff(a: Accumulators, j: nat)
    requires Sampled(j)
    ensures (forall x: Vector :: Unnoticed(a, j, x)) <==> Rest(a, j) == ZERO
  {
    if Rest(a, j) == ZERO {
      forall x: Vector
        ensures Unnoticed(a, j, x)
      {
        ZeroRestUnnoticed(a, j, x);
      }
    } else if forall x: Vector :: Unnoticed(a, j, x) {
      var c := XorDWord(VectorChecksum(Total(a)), VectorChecksum(a[j]));
      forall x: Vector
        ensures MasksAt(Rest(a, j), c, x)
      {
        UnnoticedMeansMasked(a, j, x);
      }
      ConstantMask(Rest(a, j), c);
    }
  }

  /** Accumulator 0, alone, with two contents and one checksum. */
  lemma SampledWitness()
    ensures var a: Accumulators := ZEROS; a[0 := Splat(1)] != a && Unnoticed(a, 0, Splat(1))
  {
    var a: Accumulators := ZEROS;
    assert Rest(a, 0) == ZERO;
    ZeroRestUnnoticed(a, 0, Splat(1));
    assert Splat(1)[0] != ZERO[0];
  }
}
