/** `idv::CyclicIterator` as an object: three positions, of which only `cur` is
    ever updated, by the stepping and seeking operators. Every mutating method
    keeps the invariant and is specified by `CyclicDomain.Offset`. */
module CyclicIterators {
  import opened CyclicDomain

  class CyclicIterator {
    var begin: int
    var cur: int
    var end: int

    /** The three positions as a value. */
    function Value(): Cursor
      reads this
    {
      Cursor(begin, cur, end)
    }

    /** Object invariant: `cur` stays inside the domain. */
    ghost predicate Valid()
      reads this
    {
      WellFormed(Value())
    }

    /** `CyclicIterator(begin, end)`: starts at `begin`. */
    constructor (begin: int, end: int)
      requires begin <= end
      ensures Valid() && Value() == Cursor(begin, begin, end)
    {
      this.begin, this.cur, this.end := begin, begin, end;
    }

    /** The copy a postfix operator or `operator+`/`operator-` works on. */
    constructor Copy(other: CyclicIterator)
      requires other.Valid()
      ensures Valid() && Value() == other.Value()
    {
      begin, cur, end := other.begin, other.cur, other.end;
    }

    /** `base()`: the underlying current position, always inside the domain. */
    function Base(): (r: int)
      reads this
      requires Valid()
      ensures r == Value().cur
      ensures begin <= r <= end && (r == end ==> begin == end)
    {
      cur
    }

    /** Prefix `operator++`: one step forward, from the last position back to
        `begin`; returns this iterator itself. */
    method Increment() returns (self: CyclicIterator)
      requires Valid() && begin < end
      modifies this`cur
      ensures self == this
      ensures Valid() && Value() == Offset(old(Value()), 1)
      ensures cur == if old(cur) + 1 == end then begin else old(cur) + 1
    {
      IncrementStep(Value());
      cur := cur + 1;
      if cur == end {
        cur := begin;
      }
      self := this;
    }

    /** Postfix `operator++`: steps this iterator and returns its previous state. */
    method PostIncrement() returns (copy: CyclicIterator)
      requires Valid() && begin < end
      modifies this`cur
      ensures fresh(copy) && copy.Valid() && copy.Value() == old(Value())
      ensures Valid() && Value() == Offset(old(Value()), 1)
    {
      copy := new CyclicIterator.Copy(this);
      var _ := Increment();
    }

    /** Prefix `operator--`: one step backward, from `begin` to the last position;
        returns this iterator itself. */
    method Decrement() returns (self: CyclicIterator)
      requires Valid() && begin < end
      modifies this`cur
      ensures self == this
      ensures Valid() && Value() == Offset(old(Value()), -1)
      ensures cur == if old(cur) == begin then end - 1 else old(cur) - 1
    {
      DecrementStep(Value());
      if cur == begin {
        cur := end;
      }
      cur := cur - 1;
      self := this;
    }

    /** Postfix `operator--`: steps this iterator back and returns its previous state. */
    method PostDecrement() returns (copy: CyclicIterator)
      requires Valid() && begin < end
      modifies this`cur
      ensures fresh(copy) && copy.Valid() && copy.Value() == old(Value())
      ensures Valid() && Value() == Offset(old(Value()), -1)
    {
      copy := new CyclicIterator.Copy(this);
      var _ := Decrement();
    }

    /** `operator+=`: seeks `n` positions, cyclically; returns this iterator itself. */
    method AddAssign(n: int) returns (self: CyclicIterator)
      requires Valid()
      modifies this`cur
      ensures self == this
      ensures Valid() && Value() == Offset(old(Value()), n)
    {
      Advance(n);
      self := this;
    }

    /** `operator-=`: seeks `-n` positions, cyclically; returns this iterator itself. */
    method SubAssign(n: int) returns (self: CyclicIterator)
      requires Valid()
      modifies this`cur
      ensures self == this
      ensures Valid() && Value() == Offset(old(Value()), -n)
    {
      Advance(-n);
      self := this;
    }

    /** `it + n`: a new iterator `n` positions on; this one is left as it was. */
    method Plus(n: int) returns (r: CyclicIterator)
      requires Valid()
      ensures fresh(r) && r.Valid() && r.Value() == Offset(Value(), n)
    {
      var copy := new CyclicIterator.Copy(this);
      r := copy.AddAssign(n);
    }

    /** `it - n`: a new iterator `n` positions back; this one is left as it was. */
    method Minus(n: int) returns (r: CyclicIterator)
      requires Valid()
      ensures fresh(r) && r.Valid() && r.Value() == Offset(Value(), -n)
    {
      var copy := new CyclicIterator.Copy(this);
      r := copy.SubAssign(n);
    }

    /** The private `advance(n)`: a direct move when the target lies before `end`
        (or not before `begin`), otherwise a wrap reduced by one remainder. Both
        operands of every `%` here are non-negative, so the C++ remainder and
        Dafny's Euclidean remainder agree. */
    method Advance(n: int)
      requires Valid()
      modifies this`cur
      ensures Valid() && Value() == Offset(old(Value()), n)
    {
      if n >= 0 {
        var tail := end - cur;
        if n < tail {
          DirectMove(Value(), n);
          cur := cur + n;
        } else {
          var size := end - begin;
          if size == 0 {
            return;
          }
          ForwardWrap(Value(), n);
          cur := begin + (n - tail) % size;
        }
      } else {
        var tail := (begin - cur) - 1;
        if n > tail {
          DirectMove(Value(), n);
          cur := cur + n;
        } else {
          var size := end - begin;
          if size <= 1 {
            SmallDomainFixedPoint(Value(), n);
            return;
          }
          BackwardWrap(Value(), n);
          cur := end - 1 - (tail - n) % size;
        }
      }
    }
  }

  /** `n + it`: the same iterator as `it + n`; `it` is left as it was. */
  method PlusLeft(n: int, it: CyclicIterator) returns (r: CyclicIterator)
    requires it.Valid()
    ensures fresh(r) && r.Valid() && r.Value() == Offset(it.Value(), n)
  {
    r := it.Plus(n);
  }

  /** `make_cyclic_iterator(begin, end)`: the iterator over `[begin, end)` at `begin`. */
  method MakeCyclicIterator(begin: int, end: int) returns (it: CyclicIterator)
    requires begin <= end
    ensures fresh(it) && it.Valid() && it.Value() == Cursor(begin, begin, end)
  {
    it := new CyclicIterator(begin, end);
  }

  // The clients below step over a three-element domain. The size is a parameter
  // fixed by `requires` rather than a literal: with a literal the solver unfolds
  // every `%` over constants eagerly and runs far longer.

  /** A client stepping forward over a domain of size 3: prefix `++` returns the
      iterator itself, postfix `++` a distinct object holding the previous
      position, and three steps come back to `begin`. The results are the
      positions at the start and after each step. */
  method ForwardSteps(size: int) returns (p0: int, p1: int, p2: int, p3: int)
    requires size == 3
    ensures p0 == 0 && p1 == 1 && p2 == 2 && p3 == 0
  {
    var it := MakeCyclicIterator(0, size);
    p0 := it.Base();
    var r := it.Increment();
    assert r == it;
    p1 := it.Base();
    assert p1 == 1;
    var previous := it.PostIncrement();
    IncrementStep(Cursor(0, 1, size));
    assert previous != it && previous.Base() == 1;
    p2 := it.Base();
    assert p2 == 2;
    r := it.Increment();
    p3 := it.Base();
  }

  /** The forward client over the elements `[1, 2, 3]`: the elements under the
      iterator at the start and after each step. */
  method ForwardScenario(s: seq<int>) returns (x0: int, x1: int, x2: int, x3: int)
    requires s == [1, 2, 3]
    ensures x0 == 1 && x1 == 2 && x2 == 3 && x3 == 1
  {
    var p0, p1, p2, p3 := ForwardSteps(|s|);
    x0, x1, x2, x3 := s[p0], s[p1], s[p2], s[p3];
  }

  /** A client stepping backward over a domain of size 3: from `begin`, prefix
      `--` goes to the last position and returns the iterator itself, postfix
      `--` hands back a distinct object, and a third step reaches `begin`. */
  method BackwardSteps(size: int) returns (p0: int, p1: int, p2: int, p3: int)
    requires size == 3
    ensures p0 == 0 && p1 == 2 && p2 == 1 && p3 == 0
  {
    var it := MakeCyclicIterator(0, size);
    p0 := it.Base();
    var r := it.Decrement();
    assert r == it;
    p1 := it.Base();
    assert p1 == 2;
    var previous := it.PostDecrement();
    DecrementStep(Cursor(0, 2, size));
    assert previous != it && previous.Base() == 2;
    p2 := it.Base();
    assert p2 == 1;
    r := it.Decrement();
    p3 := it.Base();
  }

  /** The backward client over the elements `[1, 2, 3]`. */
  method BackwardScenario(s: seq<int>) returns (x0: int, x1: int, x2: int, x3: int)
    requires s == [1, 2, 3]
    ensures x0 == 1 && x1 == 3 && x2 == 2 && x3 == 1
  {
    var p0, p1, p2, p3 := BackwardSteps(|s|);
    x0, x1, x2, x3 := s[p0], s[p1], s[p2], s[p3];
  }
}
