# Cyclic iterator, modelled in Dafny

`idv::CyclicIterator<It>` is a C++ iterator adapter. It holds three positions of an
underlying sequence: `begin`, `cur` and `end`. Stepping past the last position
wraps to `begin`. Stepping back from `begin` wraps to `end - 1`. A random-access
seek `advance(n)` wraps as many times as `n` needs. This model treats positions as
integer offsets into the underlying sequence.

- `modular.dfy` (module `Modular`): helper facts about Euclidean `/` and `%`.
- `cyclic_domain.dfy` (module `CyclicDomain`): the value-level model.
  - `Cursor(begin, cur, end)` is the iterator's state.
  - `WellFormed` is its invariant: `begin <= end`, and `cur` is in `[begin, end)`, or `cur == begin` on an empty domain.
  - `Offset(c, n)` is the closed form of a seek: `begin + ((cur - begin) + n) mod size`, and the identity on an empty domain.
  - Lemmas show that each branch of the source's two-branch `advance` equals the closed form, and that `++`/`--` equal offsets of `+1`/`-1`.
  - Lemmas state the laws of the cyclic offset.
  - The read-only operators (`==`, `!=`, distance, `<`, `>`, `<=`, `>=`, `*`, `[]`) are pure functions of two cursors.
- `cyclic_iterator.dfy` (module `CyclicIterators`): the class `CyclicIterator`.
  - Its fields `begin`, `cur` and `end` are as in the source.
  - Every mutating operator is a method with `modifies this`cur`, so `begin` and `end` never change after construction.
  - The private `advance` keeps the source's branches and early returns, and is proved equal to `Offset`.
  - Prefix `++`/`--` and `+=`/`-=` return the iterator itself, as the C++ returns `*this` by reference.
  - Postfix operators and `+`/`-` return a fresh copy, as the C++ copies `*this`.

Behaviours worth knowing, all proved:

- Equality compares all three positions. Comparing `cur` alone would break multipass: there are two iterators with equal `cur` and different `begin` that are unequal and that `++` takes to different positions.
- Distance and ordering use the raw `cur` with no cyclic adjustment.
  - So `<` together with `==` is not a strict total order across different domains.
  - The distance from `c` to `c + n` equals `n` only modulo the size.
- `operator[]` reads `cur[n]` without wrapping. As a position, `cur + n` agrees with that of `it + n` while it stays inside the domain. Past the domain the two positions differ, and so can the elements read there.

One might expect an empty domain to be a fixed point of every step operation.
In the code, `++` and `--` step past `end` or before `begin` there, which is
undefined behaviour. The model follows the code: `Increment`/`Decrement` require a
non-empty domain. Only `advance` (and so `+=`, `-=`, `+`, `-`) is a fixed point
on an empty domain.

## Model

| member | source | states |
|---|---|---|
| CyclicDomain.Offset | include/idv/cyclic_iterator.h:210-248 | a seek keeps `begin` and `end`, and leaves `cur` inside the domain (or at `begin` on an empty domain) |
| CyclicDomain.Steps | include/idv/cyclic_iterator.h:67-77 | repeated `++` keeps `begin`/`end` and the domain invariant |
| CyclicDomain.OffsetByLaps | include/idv/cyclic_iterator.h:219-228 | a seek lands `r` after `begin` for every decomposition of `(cur - begin) + n` into whole laps plus `0 <= r < size` |
| CyclicDomain.DirectMove | include/idv/cyclic_iterator.h:212-236 | when `cur + n` is in `[begin, end)`, the direct branch `cur += n` (either sign) equals the cyclic offset |
| CyclicDomain.ForwardWrap | include/idv/cyclic_iterator.h:212-228 | for `n >= tail` with `tail = end - cur`, the branch result `begin + (n - tail) % size` equals `begin + ((cur - begin) + n) mod size` |
| CyclicDomain.BackwardWrap | include/idv/cyclic_iterator.h:230-246 | for `n <= tail` with `tail = (begin - cur) - 1`, the branch result `end - 1 - (tail - n) % size` equals `begin + ((cur - begin) + n) mod size` |
| CyclicDomain.SmallDomainFixedPoint | include/idv/cyclic_iterator.h:219-246 | on a domain of size 0 or 1, every seek of any sign and size leaves the cursor unchanged |
| CyclicDomain.IncrementStep | include/idv/cyclic_iterator.h:67-77 | a `+1` offset is `cur + 1`, or `begin` when `cur + 1 == end` |
| CyclicDomain.DecrementStep | include/idv/cyclic_iterator.h:111-121 | a `-1` offset is `end - 1` from `begin`, and `cur - 1` otherwise |
| CyclicDomain.OffsetZero | include/idv/cyclic_iterator.h:140-145 | `it += 0` leaves the iterator unchanged |
| CyclicDomain.OffsetCompose | include/idv/cyclic_iterator.h:140-152 | `it += m; it += n` is the same as `it += m + n` |
| CyclicDomain.AdvanceInverse | include/idv/cyclic_iterator.h:140-152 | `it += n; it -= n` returns to the starting state, for every `n` |
| CyclicDomain.IncrementDecrementInverse | include/idv/cyclic_iterator.h:67-121 | on a non-empty domain, `++` then `--` returns to the same state, and so does `--` then `++` |
| CyclicDomain.OffsetLaps | include/idv/cyclic_iterator.h:219-228 | seeks that differ by whole laps (`k * size`) land on the same position |
| CyclicDomain.OffsetModuloSize | include/idv/cyclic_iterator.h:210-248 | `advance(n)` and `advance(n mod size)` land on the same position |
| CyclicDomain.StepsAreOffset | include/idv/cyclic_iterator.h:67-77 | `k` single `++` steps equal one seek by `k` |
| CyclicDomain.StepsAroundTheCycle | include/idv/cyclic_iterator.h:67-77 | stepping `++` exactly `size` times from any position returns to that position |
| CyclicDomain.Equal | include/idv/cyclic_iterator.h:94-100 | `==` holds exactly when `begin`, `cur` and `end` all agree |
| CyclicDomain.NotEqual | include/idv/cyclic_iterator.h:102-106 | `!=` holds exactly when some position differs |
| CyclicDomain.Distance | include/idv/cyclic_iterator.h:173-177 | `a - b` is the raw offset that takes `b.cur` to `a.cur` |
| CyclicDomain.DistanceIsOffset | include/idv/cyclic_iterator.h:173-177 | over one domain, `b + (a - b) == a`: seeking `b` by the distance reaches `a` |
| CyclicDomain.Less | include/idv/cyclic_iterator.h:184-188 | `a < b` exactly when the raw distance `a - b` is negative |
| CyclicDomain.Greater | include/idv/cyclic_iterator.h:190-194 | `a > b` is `b < a` |
| CyclicDomain.LessEq | include/idv/cyclic_iterator.h:196-200 | `a <= b` is the negation of `a > b` |
| CyclicDomain.GreaterEq | include/idv/cyclic_iterator.h:202-206 | `a >= b` is the negation of `a < b` |
| CyclicDomain.Multipass | include/idv/cyclic_iterator.h:87-100 | equal iterators stay equal after the same step or seek |
| CyclicDomain.CurAloneBreaksMultipass | include/idv/cyclic_iterator.h:87-93 | there are two iterators with equal `cur` and different `begin` that are unequal and that `++` takes to different positions |
| CyclicDomain.TrichotomyOnOneDomain | include/idv/cyclic_iterator.h:179-188 | over one domain, exactly one of `a < b`, `b < a`, `a == b` holds |
| CyclicDomain.TrichotomyFailsAcrossDomains | include/idv/cyclic_iterator.h:179-188 | for any two iterators with equal `cur` and a different `begin` or `end`, none of `a < b`, `b < a`, `a == b` holds |
| CyclicDomain.DistanceCountsStepsModuloSize | include/idv/cyclic_iterator.h:173-177 | the distance from `c` to `c + n` is congruent to `n` modulo the size and lies strictly between `-size` and `size` |
| CyclicDomain.Deref | include/idv/cyclic_iterator.h:55-59 | `*it` is the element at `cur`; over a non-empty domain inside the sequence it is one of the domain's elements |
| CyclicDomain.At | include/idv/cyclic_iterator.h:134-138 | `it[n]` is what `*` reads at the raw position `cur + n`, with no wrap |
| CyclicDomain.AtWithinDomain | include/idv/cyclic_iterator.h:134-138 | `it[n]` equals `*(it + n)` while `cur + n` stays in `[begin, end)` |
| CyclicDomain.AtIsNotCyclic | include/idv/cyclic_iterator.h:134-138 | past the domain, `it[n]` reads a raw position while `*(it + n)` wraps |
| CyclicDomain.SeekScenarioFrom0 | tests/main.cpp:162-188 | on a size-5 domain, from index 0: +6 gives 1 and -6 gives 4 |
| CyclicDomain.SeekScenarioFrom1 | tests/main.cpp:166-196 | on a size-5 domain, from index 1: +13 gives 4 and -3 gives 3 |
| CyclicDomain.SeekScenarioFrom4 | tests/main.cpp:168-190 | on a size-5 domain, from index 4: +3 gives 2 and -13 gives 1 |
| CyclicDomain.SeekScenarioFrom3 | tests/main.cpp:197-202 | on a size-5 domain, from index 3: -3 gives 0 |
| CyclicDomain.SeekScenarioFrom2 | tests/main.cpp:174-181 | on a size-5 domain, from index 2: +3 gives 0 |
| CyclicDomain.DistanceScenarioInside | tests/main.cpp:226-227 | `(b+2)-(b+1) == 1` and `(b+2)-(b+4) == -2` |
| CyclicDomain.DistanceScenarioAcrossWrap | tests/main.cpp:228 | `(b+7)-(b-2) == -1`: raw positions, not the 9 forward steps between them |
| CyclicDomain.OrderingScenarioGreater | tests/main.cpp:220-221 | `b-1 > b+1` and `b+2 > b+1` |
| CyclicDomain.OrderingScenarioLess | tests/main.cpp:222-223 | `b+2 < b-1` and `b-2 < b-1` |
| CyclicIterators.CyclicIterator.constructor | include/idv/cyclic_iterator.h:44-47 | construction sets `cur := begin` and establishes the invariant |
| CyclicIterators.CyclicIterator.Copy | include/idv/cyclic_iterator.h:82 | a copy holds the same three positions |
| CyclicIterators.CyclicIterator.Base | include/idv/cyclic_iterator.h:49-53 | `base()` returns the current position, which is inside the domain and equals `end` only when the domain is empty |
| CyclicIterators.CyclicIterator.Increment | include/idv/cyclic_iterator.h:67-77 | prefix `++` sets `cur` to `cur + 1`, or to `begin` at the wrap; it equals a `+1` seek, keeps the invariant, changes only `cur` and returns the iterator itself |
| CyclicIterators.CyclicIterator.PostIncrement | include/idv/cyclic_iterator.h:79-85 | postfix `++` returns a fresh copy of the pre-increment state and steps this iterator by one |
| CyclicIterators.CyclicIterator.Decrement | include/idv/cyclic_iterator.h:111-121 | prefix `--` sets `cur` to `end - 1` from `begin`, else `cur - 1`; it equals a `-1` seek, changes only `cur` and returns the iterator itself |
| CyclicIterators.CyclicIterator.PostDecrement | include/idv/cyclic_iterator.h:123-129 | postfix `--` returns a fresh copy of the pre-decrement state and steps this iterator back by one |
| CyclicIterators.CyclicIterator.AddAssign | include/idv/cyclic_iterator.h:140-145 | `+=` leaves the iterator at the cyclic offset `n` and returns the iterator itself |
| CyclicIterators.CyclicIterator.SubAssign | include/idv/cyclic_iterator.h:147-152 | `-=` leaves the iterator at the cyclic offset `-n` and returns the iterator itself |
| CyclicIterators.CyclicIterator.Plus | include/idv/cyclic_iterator.h:154-158 | `it + n` is a fresh iterator at offset `n`; `it` itself is unchanged |
| CyclicIterators.CyclicIterator.Minus | include/idv/cyclic_iterator.h:166-171 | `it - n` is a fresh iterator at offset `-n`; `it` itself is unchanged |
| CyclicIterators.CyclicIterator.Advance | include/idv/cyclic_iterator.h:208-248 | the two-branch `advance(n)`, for every `n` of any sign and size, leaves `cur == begin + ((cur - begin) + n) mod size`, or leaves it unchanged on an empty domain; only `cur` changes |
| CyclicIterators.PlusLeft | include/idv/cyclic_iterator.h:160-164 | `n + it` is the same state as `it + n` |
| CyclicIterators.MakeCyclicIterator | include/idv/cyclic_iterator.h:255-261 | `make_cyclic_iterator(begin, end)` is a fresh iterator at `begin` |
| CyclicIterators.ForwardSteps | tests/main.cpp:19-48 | over a size-3 domain, `++`, postfix `++` and `++` visit positions 0, 1, 2 and back to 0; prefix `++` returns the iterator itself and postfix `++` a distinct object |
| CyclicIterators.ForwardScenario | tests/main.cpp:19-48 | over the elements `[1, 2, 3]`, `*it` reads 1, 2, 3 and then 1 again |
| CyclicIterators.BackwardSteps | tests/main.cpp:77-105 | over a size-3 domain, `--`, postfix `--` and `--` visit positions 0, 2, 1 and back to 0; prefix `--` returns the iterator itself and postfix `--` a distinct object |
| CyclicIterators.BackwardScenario | tests/main.cpp:77-105 | over the elements `[1, 2, 3]`, `*it` reads 1, 3, 2 and then 1 again |

## Left out

- Element types, `iterator_traits` typedefs, the `static_assert` on the iterator category and the `constexpr` macro: these are compile-time only. All operations are modelled on one class. The forward / bidirectional / random-access grouping is not enforced.
- `operator*` and `operator[]` are modelled as reads `Deref` and `At` of a `seq` at an in-range offset. `operator->` is not modelled, because it forwards to the underlying iterator.
- `difference_type` overflow is not modelled; positions and offsets are unbounded integers. An example is `-n` in `operator-=` on the minimum value.
- Increment, Decrement, PostIncrement, PostDecrement: on an empty domain the source steps past `end` or before `begin`, which is undefined behaviour. So these methods require a non-empty domain.
- Copy-assignment of one iterator to another is not modelled. The copies a postfix operator or `+`/`-` makes are fresh objects.
- The underlying iterator's own behaviour (validity, invalidation on resize) is not modelled; positions are plain integers.
