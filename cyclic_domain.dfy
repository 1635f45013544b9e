/** The value-level model of `idv::CyclicIterator`: the three positions it holds,
    where `advance` takes them, and the read-only operators (equality, distance,
    ordering, element access). Positions are integer offsets into the underlying
    sequence. */
module CyclicDomain {
  import opened Modular

  /** The three underlying positions of a cyclic iterator: the inclusive start
      `begin`, the current position `cur` and the exclusive end `end`. */
  datatype Cursor = Cursor(begin: int, cur: int, end: int)

  /** Number of positions in the cyclic domain `[begin, end)`. */
  function Size(c: Cursor): int {
    c.end - c.begin
  }

  /** The iterator's invariant: `begin <= end`, and `cur` lies in `[begin, end)`
      or, on an empty domain, equals `begin`. */
  predicate WellFormed(c: Cursor) {
    c.begin <= c.end &&
    if c.begin < c.end then c.begin <= c.cur < c.end else c.cur == c.begin
  }

  /** Where `n` cyclic steps take a cursor: forward for positive `n`, backward for
      negative `n`, wrapping as many times as needed; an empty domain is a fixed point. */
  function Offset(c: Cursor, n: int): (r: Cursor)
    requires WellFormed(c)
    ensures WellFormed(r) && r.begin == c.begin && r.end == c.end
  {
    if c.begin == c.end then c
    else c.(cur := c.begin + (c.cur - c.begin + n) % Size(c))
  }

  /** `k` successive single forward steps. */
  function Steps(c: Cursor, k: nat): (r: Cursor)
    requires WellFormed(c)
    ensures WellFormed(r) && r.begin == c.begin && r.end == c.end
    decreases k
  {
    if k == 0 then c else Offset(Steps(c, k - 1), 1)
  }

  /** A seek lands `r` positions after `begin` for any way of writing the
      distance travelled from `begin` as `q` whole laps plus `r`, `0 <= r < size`. */
  lemma OffsetByLaps(c: Cursor, n: int, q: int, r: int)
    requires WellFormed(c) && c.begin < c.end
    requires 0 <= r < Size(c) && c.cur - c.begin + n == q * Size(c) + r
    ensures Offset(c, n).cur == c.begin + r
  {
    DivModUnique(c.cur - c.begin + n, Size(c), q, r);
  }

  // ---------------------------------------------------------------------------
  // The branches of `advance`, each equal to the closed form

  /** The direct branch of `advance` (no wrap, either sign of `n`). */
  lemma DirectMove(c: Cursor, n: int)
    requires WellFormed(c) && c.begin <= c.cur + n < c.end
    ensures Offset(c, n).cur == c.cur + n
  {
    DivModUnique(c.cur - c.begin + n, Size(c), 0, c.cur - c.begin + n);
  }

  /** The forward wrap branch of `advance`: once the `tail` steps up to `end` are
      used, the cursor stands at `begin` and the rest wraps modulo the size. */
  lemma ForwardWrap(c: Cursor, n: int)
    requires WellFormed(c) && c.begin < c.end
    requires n >= c.end - c.cur
    ensures Offset(c, n).cur == c.begin + (n - (c.end - c.cur)) % Size(c)
  {
    var tail := c.end - c.cur;
    ModAddMultiple(n - tail, 1, Size(c));
  }

  /** The backward wrap branch of `advance`, with `tail = (begin - cur) - 1`: the
      cursor lands `(tail - n) % size` steps before `end - 1`. */
  lemma BackwardWrap(c: Cursor, n: int)
    requires WellFormed(c) && c.begin < c.end
    requires n <= (c.begin - c.cur) - 1
    ensures Offset(c, n).cur == c.end - 1 - (((c.begin - c.cur) - 1) - n) % Size(c)
  {
    var s := Size(c);
    var t := ((c.begin - c.cur) - 1) - n;
    assert t == (t / s) * s + t % s;
    assert c.cur - c.begin + n == (-(t / s) - 1) * s + (s - t % s - 1);
    DivModUnique(c.cur - c.begin + n, s, -(t / s) - 1, s - t % s - 1);
  }

  /** On a domain of size 0 or 1 every offset is a fixed point. */
  lemma {:induction false} SmallDomainFixedPoint(c: Cursor, n: int)
    requires WellFormed(c) && Size(c) <= 1
    ensures Offset(c, n) == c
  {
    if Size(c) == 1 {
      DivModUnique(c.cur - c.begin + n, 1, c.cur - c.begin + n, 0);
    }
  }

  /** A single forward step (`operator++`): `cur + 1`, or `begin` when that is `end`. */
  lemma IncrementStep(c: Cursor)
    requires WellFormed(c) && c.begin < c.end
    ensures Offset(c, 1).cur == if c.cur + 1 == c.end then c.begin else c.cur + 1
  {
    if c.cur + 1 == c.end {
      DivModUnique(Size(c), Size(c), 1, 0);
    } else {
      DirectMove(c, 1);
    }
  }

  /** A single backward step (`operator--`): `end - 1` from `begin`, else `cur - 1`. */
  lemma DecrementStep(c: Cursor)
    requires WellFormed(c) && c.begin < c.end
    ensures Offset(c, -1).cur == if c.cur == c.begin then c.end - 1 else c.cur - 1
  {
    if c.cur == c.begin {
      DivModUnique(-1, Size(c), -1, Size(c) - 1);
    } else {
      DirectMove(c, -1);
    }
  }

  // ---------------------------------------------------------------------------
  // Laws of the cyclic offset

  /** Advancing by zero changes nothing. */
  lemma OffsetZero(c: Cursor)
    requires WellFormed(c)
    ensures Offset(c, 0) == c
  {
    if c.begin < c.end {
      DirectMove(c, 0);
    }
  }

  /** Two advances compose into one by the sum of their offsets. */
  lemma OffsetCompose(c: Cursor, m: int, n: int)
    requires WellFormed(c)
    ensures Offset(Offset(c, m), n) == Offset(c, m + n)
  {
    if c.begin < c.end {
      var s, x := Size(c), c.cur - c.begin + m;
      var d := Offset(c, m);
      assert d.cur - d.begin + n == x % s + n;
      ModAddLeft(x, n, s);
      assert x + n == c.cur - c.begin + (m + n);
    }
  }

  /** Advancing by `n` and then by `-n` (`it += n; it -= n`) returns to the start. */
  lemma AdvanceInverse(c: Cursor, n: int)
    requires WellFormed(c)
    ensures Offset(Offset(c, n), -n) == c
  {
    OffsetCompose(c, n, -n);
    OffsetZero(c);
  }

  /** `++` then `--` returns to the same position, and so does `--` then `++`. */
  lemma IncrementDecrementInverse(c: Cursor)
    requires WellFormed(c) && c.begin < c.end
    ensures Offset(Offset(c, 1), -1) == c
    ensures Offset(Offset(c, -1), 1) == c
  {
    AdvanceInverse(c, 1);
    AdvanceInverse(c, -1);
  }

  /** Offsets that differ by a whole number of laps land on the same position. */
  lemma OffsetLaps(c: Cursor, n: int, k: int)
    requires WellFormed(c) && c.begin < c.end
    ensures Offset(c, n + k * Size(c)) == Offset(c, n)
  {
    var s, x := Size(c), c.cur - c.begin;
    assert x + (n + k * s) == (x + n) + k * s;
    ModAddMultiple(x + n, k, s);
  }

  /** Advance modulo law: `advance(n)` and `advance(n mod size)` agree. */
  lemma OffsetModuloSize(c: Cursor, n: int)
    requires WellFormed(c) && c.begin < c.end
    ensures Offset(c, n % Size(c)) == Offset(c, n)
  {
    var s := Size(c);
    assert n % s == n + (-(n / s)) * s;
    OffsetLaps(c, n, -(n / s));
  }

  /** `k` single steps are the same as advancing by `k`. */
  lemma {:induction false} StepsAreOffset(c: Cursor, k: nat)
    requires WellFormed(c)
    ensures Steps(c, k) == Offset(c, k)
    decreases k
  {
    if k == 0 {
      OffsetZero(c);
    } else {
      StepsAreOffset(c, k - 1);
      OffsetCompose(c, k - 1, 1);
    }
  }

  /** Wraparound: stepping forward `size` times from any position returns to it. */
  lemma StepsAroundTheCycle(c: Cursor)
    requires WellFormed(c)
    ensures Steps(c, Size(c)) == c
  {
    StepsAreOffset(c, Size(c));
    if c.begin < c.end {
      OffsetLaps(c, 0, 1);
      assert 0 + 1 * Size(c) == Size(c);
      OffsetZero(c);
    }
  }

  // ---------------------------------------------------------------------------
  // Equality, distance and ordering

  /** `operator==`: all three positions agree. */
  function Equal(a: Cursor, b: Cursor): (r: bool)
    ensures r <==> a == b
  {
    a.begin == b.begin && a.cur == b.cur && a.end == b.end
  }

  /** `operator!=`: the negation of `operator==`. */
  function NotEqual(a: Cursor, b: Cursor): (r: bool)
    ensures r <==> a != b
  {
    !Equal(a, b)
  }

  /** Distance `a - b` between raw current positions, with no cyclic adjustment. */
  function Distance(a: Cursor, b: Cursor): (r: int)
    ensures b.cur + r == a.cur
  {
    a.cur - b.cur
  }

  /** The random-access law `b + (a - b) == a` for two iterators over one domain. */
  lemma DistanceIsOffset(a: Cursor, b: Cursor)
    requires WellFormed(a) && WellFormed(b) && a.begin == b.begin && a.end == b.end
    ensures Offset(b, Distance(a, b)) == a
  {
    if a.begin < a.end {
      OffsetByLaps(b, Distance(a, b), 0, a.cur - a.begin);
    }
  }

  /** `operator<` on raw current positions. */
  function Less(a: Cursor, b: Cursor): (r: bool)
    ensures r <==> Distance(a, b) < 0
  {
    a.cur < b.cur
  }

  /** `operator>` on raw current positions. */
  function Greater(a: Cursor, b: Cursor): (r: bool)
    ensures r <==> Less(b, a)
  {
    a.cur > b.cur
  }

  /** `operator<=` on raw current positions. */
  function LessEq(a: Cursor, b: Cursor): (r: bool)
    ensures r <==> !Greater(a, b)
  {
    a.cur <= b.cur
  }

  /** `operator>=` on raw current positions. */
  function GreaterEq(a: Cursor, b: Cursor): (r: bool)
    ensures r <==> !Less(a, b)
  {
    a.cur >= b.cur
  }

  /** Multipass: equal cursors stay equal after the same step. */
  lemma Multipass(a: Cursor, b: Cursor, n: int)
    requires WellFormed(a) && WellFormed(b) && Equal(a, b)
    ensures Equal(Offset(a, n), Offset(b, n))
  {
  }

  /** Why equality compares `begin` and `end` too: there are two cursors with the
      same `cur` and different `begin` that are unequal and that one step takes to
      different positions. */
  lemma CurAloneBreaksMultipass()
    ensures Cursor(0, 2, 3).cur == Cursor(1, 2, 3).cur
    ensures !Equal(Cursor(0, 2, 3), Cursor(1, 2, 3))
    ensures Offset(Cursor(0, 2, 3), 1).cur != Offset(Cursor(1, 2, 3), 1).cur
  {
    IncrementStep(Cursor(0, 2, 3));
    IncrementStep(Cursor(1, 2, 3));
  }

  /** On one domain, exactly one of `a < b`, `b < a`, `a == b` holds. */
  lemma TrichotomyOnOneDomain(a: Cursor, b: Cursor)
    requires a.begin == b.begin && a.end == b.end
    ensures Less(a, b) || Less(b, a) || Equal(a, b)
    ensures !(Less(a, b) && Less(b, a)) && !(Less(a, b) && Equal(a, b)) && !(Less(b, a) && Equal(a, b))
  {
  }

  /** The ordering is not a total order with `operator==`: any two cursors with the
      same `cur` over different domains are neither less, greater nor equal. */
  lemma TrichotomyFailsAcrossDomains(a: Cursor, b: Cursor)
    requires a.cur == b.cur && (a.begin != b.begin || a.end != b.end)
    ensures !Less(a, b) && !Less(b, a) && !Equal(a, b)
  {
  }

  /** The raw distance from `c` to `c + n` agrees with `n` only modulo the size and
      always lies strictly between `-size` and `size`. */
  lemma DistanceCountsStepsModuloSize(c: Cursor, n: int)
    requires WellFormed(c) && c.begin < c.end
    ensures (Distance(Offset(c, n), c) - n) % Size(c) == 0
    ensures -Size(c) < Distance(Offset(c, n), c) < Size(c)
  {
    var s := Size(c);
    var x := c.cur - c.begin + n;
    assert x == (x / s) * s + x % s;
    assert Distance(Offset(c, n), c) - n == (-(x / s)) * s + 0;
    DivModUnique(Distance(Offset(c, n), c) - n, s, -(x / s), 0);
  }

  // ---------------------------------------------------------------------------
  // Element access (pass-through to the underlying sequence)

  /** `operator*`: the element at the current position; for a non-empty domain
      inside the sequence it is one of the domain's elements. */
  function Deref<T>(s: seq<T>, c: Cursor): (r: T)
    requires 0 <= c.cur < |s|
    ensures WellFormed(c) && 0 <= c.begin < c.end <= |s| ==> r in s[c.begin..c.end]
  {
    if WellFormed(c) && 0 <= c.begin < c.end <= |s| then
      assert s[c.begin..c.end][c.cur - c.begin] == s[c.cur];
      s[c.cur]
    else
      s[c.cur]
  }

  /** `operator[]`: the element `n` raw positions from `cur`, with no wrap: what
      `operator*` gives at `cur + n`, whether or not that lies in the domain. */
  function At<T>(s: seq<T>, c: Cursor, n: int): (r: T)
    requires 0 <= c.cur + n < |s|
    ensures r == Deref(s, c.(cur := c.cur + n))
  {
    s[c.cur + n]
  }

  /** `it[n]` agrees with `*(it + n)` while `cur + n` stays inside the domain. */
  lemma AtWithinDomain<T>(s: seq<T>, c: Cursor, n: int)
    requires WellFormed(c) && 0 <= c.begin && c.end <= |s|
    requires c.begin <= c.cur + n < c.end
    ensures At(s, c, n) == Deref(s, Offset(c, n))
  {
    DirectMove(c, n);
  }

  /** Past the domain `it[n]` reads outside it, while `*(it + n)` wraps. */
  lemma AtIsNotCyclic(s: seq<int>, c: Cursor)
    requires s == [1, 2, 3, 4, 5] && c == Cursor(0, 0, 3)
    ensures At(s, c, 4) == 5
    ensures Deref(s, Offset(c, 4)) == 2
  {
    OffsetByLaps(c, 4, 1, 1);
  }

  // ---------------------------------------------------------------------------
  // Concrete scenarios over a five-element sequence

  // The seeks of a test on a size-5 domain, each from the position the previous
  // one left: from `begin` +6 gives 1, then +13 gives 4, +3 gives 2, +3 gives 0;
  // backward, from `begin` -6 gives 4, then -13 gives 1, -3 gives 3, -3 gives 0.
  //
  // Each scenario takes its cursor as a parameter fixed by `requires` rather than
  // writing the literal in the contract: with a literal cursor the solver unfolds
  // every `%` over constants eagerly and runs far longer. Each proof names the
  // laps and remainder of every seek through `OffsetByLaps`.

  /** Seeks from index 0 of a size-5 domain. */
  lemma SeekScenarioFrom0(c: Cursor)
    requires c == Cursor(0, 0, 5)
    ensures Offset(c, 6).cur == 1 && Offset(c, -6).cur == 4
  {
    OffsetByLaps(c, 6, 1, 1);
    OffsetByLaps(c, -6, -2, 4);
  }

  /** Seeks from index 1 of a size-5 domain. */
  lemma SeekScenarioFrom1(c: Cursor)
    requires c == Cursor(0, 1, 5)
    ensures Offset(c, 13).cur == 4 && Offset(c, -3).cur == 3
  {
    OffsetByLaps(c, 13, 2, 4);
    OffsetByLaps(c, -3, -1, 3);
  }

  /** Seeks from index 4 of a size-5 domain. */
  lemma SeekScenarioFrom4(c: Cursor)
    requires c == Cursor(0, 4, 5)
    ensures Offset(c, 3).cur == 2 && Offset(c, -13).cur == 1
  {
    OffsetByLaps(c, 3, 1, 2);
    OffsetByLaps(c, -13, -2, 1);
  }

  /** Seek back from index 3 of a size-5 domain. */
  lemma SeekScenarioFrom3(c: Cursor)
    requires c == Cursor(0, 3, 5)
    ensures Offset(c, -3).cur == 0
  {
    OffsetByLaps(c, -3, 0, 0);
  }

  /** Seek from index 2 of a size-5 domain. */
  lemma SeekScenarioFrom2(c: Cursor)
    requires c == Cursor(0, 2, 5)
    ensures Offset(c, 3).cur == 0
  {
    OffsetByLaps(c, 3, 1, 0);
  }

  /** Raw distances `(b+2)-(b+1)` and `(b+2)-(b+4)` from `begin` of a size-5 domain. */
  lemma DistanceScenarioInside(b: Cursor)
    requires b == Cursor(0, 0, 5)
    ensures Distance(Offset(b, 2), Offset(b, 1)) == 1
    ensures Distance(Offset(b, 2), Offset(b, 4)) == -2
  {
    OffsetByLaps(b, 1, 0, 1);
    OffsetByLaps(b, 2, 0, 2);
    OffsetByLaps(b, 4, 0, 4);
  }

  /** Raw distance `(b+7)-(b-2)` across the wrap of a size-5 domain: -1, not 9. */
  lemma DistanceScenarioAcrossWrap(b: Cursor)
    requires b == Cursor(0, 0, 5)
    ensures Distance(Offset(b, 7), Offset(b, -2)) == -1
  {
    OffsetByLaps(b, 7, 1, 2);
    OffsetByLaps(b, -2, -1, 3);
  }

  /** Raw orderings `b-1 > b+1` and `b+2 > b+1` on a size-5 domain. */
  lemma OrderingScenarioGreater(b: Cursor)
    requires b == Cursor(0, 0, 5)
    ensures Greater(Offset(b, -1), Offset(b, 1))
    ensures Greater(Offset(b, 2), Offset(b, 1))
  {
    OffsetByLaps(b, 1, 0, 1);
    OffsetByLaps(b, 2, 0, 2);
    OffsetByLaps(b, -1, -1, 4);
  }

  /** Raw orderings `b+2 < b-1` and `b-2 < b-1` on a size-5 domain. */
  lemma OrderingScenarioLess(b: Cursor)
    requires b == Cursor(0, 0, 5)
    ensures Less(Offset(b, 2), Offset(b, -1))
    ensures Less(Offset(b, -2), Offset(b, -1))
  {
    OffsetByLaps(b, 2, 0, 2);
    OffsetByLaps(b, -1, -1, 4);
    OffsetByLaps(b, -2, -1, 3);
  }
}
