/** The four object lists of the game (main.c): fixed arrays of `struct Object` with a live
    count, their shift-down compaction (`release_*_list`) and the spawns that append two
    entries (`spawn_boulders`, `spawn_fragment`).

    An array is modelled as the sequence of everything written to it. It starts with the
    array's capacity in zero-filled slots and grows by one slot when a store lands one past
    its end, because neither the spawns nor the cheat commands check the capacity. */
module Pools {
  import opened CRuntime
  import Graphics

  /** `struct Object`: position and heading in degrees, all `double`s (exact reals here). */
  datatype Entity = Entity(x: real, y: real, angle: real)

  /** A zero-initialised global `struct Object`. */
  const Zero := Entity(0.0, 0.0, 0.0)

  /** The capacities and the marker of a removed object, from main.h. */
  const MaxPlasma: nat := 50
  const MaxAsteroid: nat := 3
  const MaxBoulder: nat := 6
  const MaxFragment: nat := 12
  const Vanish: real := 999.0

  /** An object list and its counter (`plasma_counter`, `asteroid_counter`, ...). */
  datatype Pool = Pool(slots: seq<Entity>, count: nat)

  predicate ValidPool(p: Pool) {
    p.count <= |p.slots|
  }

  /** A list as the program starts it: `capacity` zero slots, none live. */
  function EmptyPool(capacity: nat): (p: Pool)
    ensures ValidPool(p) && p.count == 0 && |p.slots| == capacity
  {
    Pool(seq(capacity, _ => Zero), 0)
  }

  /** The live entries, `list[0 .. counter - 1]`. */
  function Live(p: Pool): seq<Entity>
    requires ValidPool(p)
  {
    p.slots[..p.count]
  }

  /** The removal test of a `release_*_list` function: a plasma bolt goes when it leaves the
      screen on the left, right or top; asteroids, boulders and fragments go only when
      `x > LCD_X`, which is how the `VANISH` marker 999 removes them. */
  datatype Rule = PlasmaRule | RockRule

  predicate Gone(rule: Rule, e: Entity) {
    match rule
    case PlasmaRule => e.x > Graphics.LcdX as real || e.x < 0.0 || e.y < 0.0
    case RockRule => e.x > Graphics.LcdX as real
  }

  /** `list[k]`: a slot the model holds, or `beyond`, the unknown memory past everything written
      so far (read when the list is full). */
  function ReadSlot(slots: seq<Entity>, k: nat, beyond: Entity): Entity {
    if k < |slots| then slots[k] else beyond
  }

  /** The inner loop of a release: `for (b = a; b < counter; b++) list[b] = list[b + 1];`. */
  function ShiftDown(slots: seq<Entity>, a: nat, n: nat, beyond: Entity): (r: seq<Entity>)
    requires a <= n <= |slots|
    ensures |r| == |slots|
    ensures forall b :: 0 <= b < |r| ==>
      r[b] == if a <= b < n then ReadSlot(slots, b + 1, beyond) else slots[b]
    decreases n - a
  {
    if a >= n then slots
    else ShiftDown(slots[a := ReadSlot(slots, a + 1, beyond)], a + 1, n, beyond)
  }

  /** One pass of the outer loop of a release at index `a`: a match is shifted over and
      counted. */
  function ReleaseStep(slots: seq<Entity>, n: nat, a: nat, removed: nat, rule: Rule, beyond: Entity)
    : (r: (seq<Entity>, nat))
    requires a < n <= |slots|
    ensures |r.0| == |slots|
    ensures r.1 == removed || r.1 == removed + 1
  {
    if Gone(rule, slots[a]) then (ShiftDown(slots, a, n, beyond), removed + 1) else (slots, removed)
  }

  /** The outer loop of a release from index `a`, the loop bound `n` fixed at the counter's
      value on entry, with `removed` matches so far. */
  function ReleaseFrom(slots: seq<Entity>, n: nat, a: nat, removed: nat, rule: Rule, beyond: Entity)
    : (r: (seq<Entity>, nat))
    requires a <= n <= |slots|
    ensures |r.0| == |slots|
    ensures removed <= r.1 <= removed + (n - a)
    decreases n - a
  {
    if a >= n then (slots, removed)
    else
      var step := ReleaseStep(slots, n, a, removed, rule, beyond);
      ReleaseFrom(step.0, n, a + 1, step.1, rule, beyond)
  }

  /** `release_plasma_list`, `release_asteroid_list`, `release_boulder_list`,
      `release_fragment_list`: test each index below the old counter, shift the tail down over
      every match (reading the slot at the counter, one past the live entries), and take the
      number of matches off the counter. */
  function Release(p: Pool, rule: Rule, beyond: Entity): (r: Pool)
    requires ValidPool(p)
    ensures ValidPool(r) && |r.slots| == |p.slots| && r.count <= p.count
  {
    var (slots, removed) := ReleaseFrom(p.slots, p.count, 0, 0, rule, beyond);
    Pool(slots, p.count - removed)
  }

  lemma {:induction false} ReleaseFromNoop(slots: seq<Entity>, n: nat, a: nat, removed: nat, rule: Rule, beyond: Entity)
    requires a <= n <= |slots|
    requires forall i :: a <= i < n ==> !Gone(rule, slots[i])
    ensures ReleaseFrom(slots, n, a, removed, rule, beyond) == (slots, removed)
    decreases n - a
  {
    if a < n {
      ReleaseFromNoop(slots, n, a + 1, removed, rule, beyond);
    }
  }

  /** When no live entry meets the removal test, a release changes nothing. */
  lemma ReleaseNoop(p: Pool, rule: Rule, beyond: Entity)
    requires ValidPool(p)
    requires forall i :: 0 <= i < p.count ==> !Gone(rule, p.slots[i])
    ensures Release(p, rule, beyond) == p
  {
    ReleaseFromNoop(p.slots, p.count, 0, 0, rule, beyond);
  }

  lemma {:induction false} ReleaseFromFindsFirst(slots: seq<Entity>, n: nat, a: nat, removed: nat, rule: Rule, beyond: Entity, g: nat)
    requires a <= g < n <= |slots|
    requires forall i :: a <= i < g ==> !Gone(rule, slots[i])
    requires Gone(rule, slots[g])
    ensures ReleaseFrom(slots, n, a, removed, rule, beyond).1 > removed
    decreases n - a
  {
    if a < g {
      ReleaseFromFindsFirst(slots, n, a + 1, removed, rule, beyond, g);
    }
  }

  /** A release shrinks the list exactly when some live entry meets the removal test. */
  lemma ReleaseShrinksIff(p: Pool, rule: Rule, beyond: Entity)
    requires ValidPool(p)
    ensures Release(p, rule, beyond).count < p.count <==> exists i :: 0 <= i < p.count && Gone(rule, p.slots[i])
  {
    if exists i :: 0 <= i < p.count && Gone(rule, p.slots[i]) {
      var g := FirstGone(p.slots, p.count, rule);
      ReleaseFromFindsFirst(p.slots, p.count, 0, 0, rule, beyond, g);
    } else {
      ReleaseNoop(p, rule, beyond);
    }
  }

  /** The smallest index below `n` whose entry meets the removal test. */
  function FirstGone(slots: seq<Entity>, n: nat, rule: Rule): (g: nat)
    requires n <= |slots|
    requires exists i :: 0 <= i < n && Gone(rule, slots[i])
    ensures g < n && Gone(rule, slots[g])
    ensures forall i :: 0 <= i < g ==> !Gone(rule, slots[i])
  {
    if Gone(rule, slots[0]) then 0
    else
      var g := FirstGone(slots[1..], n - 1, rule) + 1;
      assert forall i :: 1 <= i < g ==> slots[i] == slots[1..][i - 1];
      g
  }

  /** The entries that do not meet the removal test, in order. */
  function Filter(s: seq<Entity>, rule: Rule): (r: seq<Entity>)
    ensures |r| + CountGone(s, rule) == |s|
    decreases |s|
  {
    if |s| == 0 then []
    else Filter(s[..|s| - 1], rule) + (if Gone(rule, s[|s| - 1]) then [] else [s[|s| - 1]])
  }

  /** The number of entries that meet the removal test. */
  function CountGone(s: seq<Entity>, rule: Rule): nat
    decreases |s|
  {
    if |s| == 0 then 0
    else CountGone(s[..|s| - 1], rule) + (if Gone(rule, s[|s| - 1]) then 1 else 0)
  }

  /** Slot `i` of the sequence the release loop effectively scans: the live entries followed by
      copies of the slot at the counter, which is what every shift pulls into the tail. */
  function Ext(slots: seq<Entity>, n: nat, tail: Entity, i: nat): Entity
    requires n <= |slots|
  {
    if i < n then slots[i] else tail
  }

  /** The first `m` entries of the scanned sequence. */
  function Scanned(slots: seq<Entity>, n: nat, tail: Entity, m: nat): (r: seq<Entity>)
    requires n <= |slots|
    ensures |r| == m
  {
    if m == 0 then [] else Scanned(slots, n, tail, m - 1) + [Ext(slots, n, tail, m - 1)]
  }

  /** `k` copies of `e`. */
  function Copies(e: Entity, k: nat): (r: seq<Entity>)
    ensures |r| == k
  {
    if k == 0 then [] else Copies(e, k - 1) + [e]
  }

  lemma {:induction false} ScannedLive(slots: seq<Entity>, n: nat, tail: Entity, m: nat)
    requires m <= n <= |slots|
    ensures Scanned(slots, n, tail, m) == slots[..m]
  {
    if m > 0 {
      ScannedLive(slots, n, tail, m - 1);
      assert slots[..m] == slots[..m - 1] + [slots[m - 1]];
    }
  }

  lemma {:induction false} ScannedTail(slots: seq<Entity>, n: nat, tail: Entity, k: nat)
    requires n <= |slots|
    ensures Scanned(slots, n, tail, n + k) == slots[..n] + Copies(tail, k)
  {
    if k == 0 {
      ScannedLive(slots, n, tail, n);
    } else {
      ScannedTail(slots, n, tail, k - 1);
      assert slots[..n] + Copies(tail, k) == (slots[..n] + Copies(tail, k - 1)) + [tail];
    }
  }

  lemma FilterSnoc(s: seq<Entity>, e: Entity, rule: Rule)
    ensures Filter(s + [e], rule) == Filter(s, rule) + (if Gone(rule, e) then [] else [e])
    ensures CountGone(s + [e], rule) == CountGone(s, rule) + (if Gone(rule, e) then 1 else 0)
  {
    assert (s + [e])[..|s|] == s;
  }

  lemma {:induction false} FilterAliveTail(s: seq<Entity>, tail: Entity, k: nat, rule: Rule)
    requires !Gone(rule, tail)
    ensures Filter(s + Copies(tail, k), rule) == Filter(s, rule) + Copies(tail, k)
    ensures CountGone(s + Copies(tail, k), rule) == CountGone(s, rule)
  {
    if k > 0 {
      FilterAliveTail(s, tail, k - 1, rule);
      assert s + Copies(tail, k) == (s + Copies(tail, k - 1)) + [tail];
      FilterSnoc(s + Copies(tail, k - 1), tail, rule);
    } else {
      assert s + Copies(tail, k) == s;
    }
  }

  /** No two neighbouring live entries both meet the removal test. */
  predicate NoAdjacentGone(slots: seq<Entity>, n: nat, rule: Rule)
    requires n <= |slots|
  {
    forall i :: 0 <= i < n - 1 ==> !(Gone(rule, slots[i]) && Gone(rule, slots[i + 1]))
  }

  /** The slots still to be tested hold the scanned sequence shifted by the `k` matches so far,
      and the slot at the counter still holds its first value. */
  predicate Ahead(cur: seq<Entity>, slots: seq<Entity>, n: nat, tail: Entity, beyond: Entity, a: nat, k: nat)
    requires n <= |slots|
  {
    |cur| == |slots| && a <= n
    && ReadSlot(cur, n, beyond) == tail
    && forall j :: a <= j < n ==> cur[j] == Ext(slots, n, tail, j + k)
  }

  /** The slots already passed hold the survivors of the first `a + k` scanned entries, of
      which `k` matched. */
  predicate Behind(cur: seq<Entity>, slots: seq<Entity>, n: nat, tail: Entity, a: nat, k: nat, rule: Rule)
    requires n <= |slots|
  {
    a <= |cur|
    && cur[..a] == Filter(Scanned(slots, n, tail, a + k), rule)
    && k == CountGone(Scanned(slots, n, tail, a + k), rule)
  }

  /** The release loop's invariant on entering index `a` after `k` matches. */
  predicate ScanInvariant(cur: seq<Entity>, slots: seq<Entity>, n: nat, tail: Entity, beyond: Entity,
                          a: nat, k: nat, rule: Rule)
    requires n <= |slots|
  {
    Ahead(cur, slots, n, tail, beyond, a, k) && Behind(cur, slots, n, tail, a, k, rule)
  }

  /** The shift over a match moves every untested slot one scanned entry on. */
  lemma AheadShift(cur: seq<Entity>, slots: seq<Entity>, n: nat, tail: Entity, beyond: Entity, a: nat, k: nat)
    requires n <= |slots| && Ahead(cur, slots, n, tail, beyond, a, k) && a < n
    ensures var cur' := ShiftDown(cur, a, n, beyond);
      Ahead(cur', slots, n, tail, beyond, a + 1, k + 1)
      && cur'[..a] == cur[..a] && cur'[a] == Ext(slots, n, tail, a + k + 1)
  {
    var cur' := ShiftDown(cur, a, n, beyond);
    forall j | a <= j < n
      ensures cur'[j] == Ext(slots, n, tail, j + k + 1)
    {
      if j + 1 < n {
        assert cur[j + 1] == Ext(slots, n, tail, j + 1 + k);
      }
    }
    assert cur'[..a] == cur[..a];
  }

  /** A match followed by a survivor adds just the survivor. */
  lemma FilterPair(s: seq<Entity>, e: Entity, f: Entity, rule: Rule)
    requires Gone(rule, e) && !Gone(rule, f)
    ensures Filter(s + [e] + [f], rule) == Filter(s, rule) + [f]
    ensures CountGone(s + [e] + [f], rule) == CountGone(s, rule) + 1
  {
    FilterSnoc(s, e, rule);
    FilterSnoc(s + [e], f, rule);
  }

  /** Over a match followed by a survivor, the survivors gain that one entry. */
  lemma BehindShift(cur: seq<Entity>, cur': seq<Entity>, slots: seq<Entity>, n: nat, tail: Entity, a: nat, k: nat, rule: Rule)
    requires n <= |slots| && Behind(cur, slots, n, tail, a, k, rule)
    requires a < |cur'| && cur'[..a] == cur[..a] && cur'[a] == Ext(slots, n, tail, a + k + 1)
    requires Gone(rule, Ext(slots, n, tail, a + k)) && !Gone(rule, Ext(slots, n, tail, a + k + 1))
    ensures Behind(cur', slots, n, tail, a + 1, k + 1, rule)
  {
    var m := a + k;
    var before := Scanned(slots, n, tail, m);
    assert Scanned(slots, n, tail, m + 1) == before + [Ext(slots, n, tail, m)];
    assert Scanned(slots, n, tail, m + 2) == Scanned(slots, n, tail, m + 1) + [cur'[a]];
    FilterPair(before, Ext(slots, n, tail, m), cur'[a], rule);
    assert cur'[..a + 1] == cur[..a] + [cur'[a]];
  }

  /** One step over a matching entry: the shift pulls the next scanned entry into place, and
      that entry survives. */
  lemma ScanStepGone(cur: seq<Entity>, slots: seq<Entity>, n: nat, tail: Entity, beyond: Entity,
                     a: nat, k: nat, rule: Rule)
    requires n <= |slots|
    requires !Gone(rule, tail) && NoAdjacentGone(slots, n, rule)
    requires ScanInvariant(cur, slots, n, tail, beyond, a, k, rule)
    requires a < n && Gone(rule, cur[a])
    ensures var step := ReleaseStep(cur, n, a, k, rule, beyond);
      ScanInvariant(step.0, slots, n, tail, beyond, a + 1, step.1, rule)
  {
    assert cur[a] == Ext(slots, n, tail, a + k);
    assert a + k < n;
    assert !Gone(rule, Ext(slots, n, tail, a + k + 1)) by {
      if a + k + 1 < n {
        assert !(Gone(rule, slots[a + k]) && Gone(rule, slots[a + k + 1]));
      }
    }
    AheadShift(cur, slots, n, tail, beyond, a, k);
    BehindShift(cur, ShiftDown(cur, a, n, beyond), slots, n, tail, a, k, rule);
  }

  /** One step over a surviving entry: it stays where it is. */
  lemma ScanStepKeep(cur: seq<Entity>, slots: seq<Entity>, n: nat, tail: Entity, beyond: Entity,
                     a: nat, k: nat, rule: Rule)
    requires n <= |slots|
    requires ScanInvariant(cur, slots, n, tail, beyond, a, k, rule)
    requires a < n && !Gone(rule, cur[a])
    ensures var step := ReleaseStep(cur, n, a, k, rule, beyond);
      ScanInvariant(step.0, slots, n, tail, beyond, a + 1, step.1, rule)
  {
    assert cur[a] == Ext(slots, n, tail, a + k);
    BehindKeep(cur, slots, n, tail, a, k, rule);
  }

  /** Over a survivor, the survivors gain it. */
  lemma BehindKeep(cur: seq<Entity>, slots: seq<Entity>, n: nat, tail: Entity, a: nat, k: nat, rule: Rule)
    requires n <= |slots| && Behind(cur, slots, n, tail, a, k, rule)
    requires a < |cur| && cur[a] == Ext(slots, n, tail, a + k) && !Gone(rule, cur[a])
    ensures Behind(cur, slots, n, tail, a + 1, k, rule)
  {
    var before := Scanned(slots, n, tail, a + k);
    assert Scanned(slots, n, tail, a + k + 1) == before + [cur[a]];
    FilterSnoc(before, cur[a], rule);
    assert cur[..a + 1] == cur[..a] + [cur[a]];
  }

  /** One pass of the outer loop keeps the scan invariant. */
  lemma ScanStep(cur: seq<Entity>, slots: seq<Entity>, n: nat, tail: Entity, beyond: Entity,
                 a: nat, k: nat, rule: Rule)
    requires n <= |slots|
    requires !Gone(rule, tail) && NoAdjacentGone(slots, n, rule)
    requires ScanInvariant(cur, slots, n, tail, beyond, a, k, rule) && a < n
    ensures var step := ReleaseStep(cur, n, a, k, rule, beyond);
      ScanInvariant(step.0, slots, n, tail, beyond, a + 1, step.1, rule)
  {
    if Gone(rule, cur[a]) {
      ScanStepGone(cur, slots, n, tail, beyond, a, k, rule);
    } else {
      ScanStepKeep(cur, slots, n, tail, beyond, a, k, rule);
    }
  }

  lemma {:induction false} ReleaseFromScan(cur: seq<Entity>, slots: seq<Entity>, n: nat, tail: Entity, beyond: Entity,
                                           a: nat, k: nat, rule: Rule)
    requires n <= |slots|
    requires !Gone(rule, tail) && NoAdjacentGone(slots, n, rule)
    requires ScanInvariant(cur, slots, n, tail, beyond, a, k, rule)
    ensures var r := ReleaseFrom(cur, n, a, k, rule, beyond);
      ScanInvariant(r.0, slots, n, tail, beyond, n, r.1, rule)
    decreases n - a
  {
    if a < n {
      var step := ReleaseStep(cur, n, a, k, rule, beyond);
      ScanStep(cur, slots, n, tail, beyond, a, k, rule);
      ReleaseFromScan(step.0, slots, n, tail, beyond, a + 1, step.1, rule);
    }
  }

  /** When the slot at the counter does not meet the removal test and no two neighbouring live
      entries do, a release is a filter: the survivors keep their order and the counter drops
      by the number of matches. Without those two conditions it is not (see `OverRemoval` and
      `SkipAfterShift`). */
  lemma ReleaseFilters(p: Pool, rule: Rule, beyond: Entity)
    requires ValidPool(p)
    requires !Gone(rule, ReadSlot(p.slots, p.count, beyond))
    requires NoAdjacentGone(p.slots, p.count, rule)
    ensures var r := Release(p, rule, beyond);
      Live(r) == Filter(Live(p), rule) && r.count == p.count - CountGone(Live(p), rule)
  {
    var n := p.count;
    var tail := ReadSlot(p.slots, n, beyond);
    assert ScanInvariant(p.slots, p.slots, n, tail, beyond, 0, 0, rule);
    ReleaseFromScan(p.slots, p.slots, n, tail, beyond, 0, 0, rule);
    var r := ReleaseFrom(p.slots, n, 0, 0, rule, beyond);
    ScanFinish(r.0, p.slots, n, tail, r.1, rule);
  }

  /** At the end of the scan the first `n - k` slots hold the survivors of the live entries. */
  lemma ScanFinish(cur: seq<Entity>, slots: seq<Entity>, n: nat, tail: Entity, k: nat, rule: Rule)
    requires n <= |slots| && !Gone(rule, tail)
    requires Behind(cur, slots, n, tail, n, k, rule)
    ensures k <= n && cur[..n - k] == Filter(slots[..n], rule) && k == CountGone(slots[..n], rule)
  {
    ScannedTail(slots, n, tail, k);
    FilterAliveTail(slots[..n], tail, k, rule);
    assert cur[..n - k] == cur[..n][..n - k];
  }

  /** An asteroid marked for removal, a live one, and a stale marked copy in the slot at the
      counter. */
  const Marked := Entity(Vanish, 0.0, 0.0)
  const Falling := Entity(10.0, 10.0, 0.0)

  /** The stale slot at the counter is tested too: after the marked entry is removed, the stale
      marked copy shifted into the tail is counted a second time, and the live asteroid is lost
      with it. */
  lemma OverRemoval(beyond: Entity)
    ensures Release(Pool([Marked, Falling, Marked], 2), RockRule, beyond).count == 0
  {
    var s1 := ShiftDown([Marked, Falling, Marked], 0, 2, beyond);
    assert s1 == [Falling, Marked, Marked];
    var s2 := ShiftDown(s1, 1, 2, beyond);
    assert s2 == [Falling, Marked, Marked];
  }

  /** The entry shifted into a vacated slot is not tested: of two neighbouring marked entries
      the second survives. */
  lemma SkipAfterShift(beyond: Entity)
    ensures var r := Release(Pool([Marked, Marked, Falling, Falling], 3), RockRule, beyond);
      r.count == 2 && Live(r) == [Marked, Falling]
  {
    var s1 := ShiftDown([Marked, Marked, Falling, Falling], 0, 3, beyond);
    assert s1 == [Marked, Falling, Falling, Falling];
  }

  /** `while (x < lo) x++;` */
  function RaiseTo(x: real, lo: real): (r: real)
    ensures r >= lo && r >= x
    ensures x >= lo ==> r == x
    ensures x < lo ==> r < lo + 1.0
    decreases if x < lo then (lo - x).Floor + 1 else 0
  {
    if x < lo then RaiseTo(x + 1.0, lo) else x
  }

  /** `while (x + w > LCD_X) x--;` */
  function LowerToFit(x: real, w: real): (r: real)
    ensures r + w <= Graphics.LcdX as real && r <= x
    ensures x + w <= Graphics.LcdX as real ==> r == x
    ensures x + w > Graphics.LcdX as real ==> r + w > Graphics.LcdX as real - 1.0
    decreases if x + w > Graphics.LcdX as real then (x + w - Graphics.LcdX as real).Floor + 1 else 0
  {
    if x + w > Graphics.LcdX as real then LowerToFit(x - 1.0, w) else x
  }

  /** `rand() % 61 + (-30)`, for a draw `r` of `rand()` (which is never negative). */
  function RandomTilt(r: nat): (a: real)
    ensures -30.0 <= a <= 30.0
    ensures a.Floor as real == a
  {
    ((r % 61) - 30) as real
  }

  /** `spawn_boulders(x, y)`: step `x` into [0, 79] one unit at a time, then store boulders at
      `x` and `x + 2`, both at height `y` and each with a random heading in [-30, 30], at the
      counter and one past it. There is no capacity check. */
  function SpawnBoulders(p: Pool, x: real, y: real, r1: nat, r2: nat): (q: Pool)
    requires ValidPool(p)
    ensures ValidPool(q) && q.count == p.count + 2
    ensures var x' := q.slots[p.count].x;
      0.0 <= x' <= 79.0
      && (0.0 <= x <= 79.0 ==> x' == x)
      && q.slots[p.count + 1].x == x' + 2.0
    ensures q.slots[p.count].y == y && q.slots[p.count + 1].y == y
    ensures -30.0 <= q.slots[p.count].angle <= 30.0 && -30.0 <= q.slots[p.count + 1].angle <= 30.0
    ensures |q.slots| >= |p.slots| && forall i :: 0 <= i < |p.slots| && i != p.count && i != p.count + 1 ==> q.slots[i] == p.slots[i]
  {
    var x' := LowerToFit(RaiseTo(x, 0.0), 5.0);
    var s1 := Put(p.slots, p.count, Entity(x', y, RandomTilt(r1)));
    var s2 := Put(s1, p.count + 1, Entity(x' + 2.0, y, RandomTilt(r2)));
    Pool(s2, p.count + 2)
  }

  /** `spawn_fragment(x, y, angle)`: step `x` into [3, 74] one unit at a time, then store
      fragments at `x - 3` and `x + 5`, at height `y`, each heading `angle` tilted by a random
      amount in [-30, 30], at the counter and one past it. There is no capacity check. */
  function SpawnFragments(p: Pool, x: real, y: real, angle: real, r1: nat, r2: nat): (q: Pool)
    requires ValidPool(p)
    ensures ValidPool(q) && q.count == p.count + 2
    ensures var x' := q.slots[p.count].x + 3.0;
      3.0 <= x' <= 74.0
      && (3.0 <= x <= 74.0 ==> x' == x)
      && q.slots[p.count + 1].x == x' + 5.0
    ensures q.slots[p.count].y == y && q.slots[p.count + 1].y == y
    ensures angle - 30.0 <= q.slots[p.count].angle <= angle + 30.0
    ensures angle - 30.0 <= q.slots[p.count + 1].angle <= angle + 30.0
    ensures |q.slots| >= |p.slots| && forall i :: 0 <= i < |p.slots| && i != p.count && i != p.count + 1 ==> q.slots[i] == p.slots[i]
  {
    var x' := LowerToFit(RaiseTo(x, 3.0), 10.0);
    var s1 := Put(p.slots, p.count, Entity(x' - 3.0, y, angle + RandomTilt(r1)));
    var s2 := Put(s1, p.count + 1, Entity(x' + 5.0, y, angle + RandomTilt(r2)));
    Pool(s2, p.count + 2)
  }

  /** Spawning into a full boulder list still adds two: the counter passes `MAX_BOULDER` and the
      stores land past the end of the array. */
  lemma SpawnIgnoresCapacity(x: real, y: real, r1: nat, r2: nat)
    ensures var p := Pool(seq(MaxBoulder, _ => Zero), MaxBoulder);
      SpawnBoulders(p, x, y, r1, r2).count == MaxBoulder + 2
      && |SpawnBoulders(p, x, y, r1, r2).slots| == MaxBoulder + 2
  {
  }

  /** The second boulder of a pair can start beyond the 79 that bounds the first: an asteroid
      hit at the right edge gives a boulder at x = 81. */
  lemma SecondBoulderPastEdge(r1: nat, r2: nat)
    ensures SpawnBoulders(EmptyPool(MaxBoulder), 80.0, 0.0, r1, r2).slots[1].x == 81.0
  {
    assert LowerToFit(80.0, 5.0) == 79.0;
  }
}
