/** Plasma hit detection and scoring (main.c `asteroid_detection`, `boulder_detection`,
    `fragment_detection`, `collision_detection`): every live plasma bolt is tested against every
    live target of one kind, in that nesting order; a hit scores, marks both objects for
    removal and, for asteroids and boulders, spawns the next smaller kind. */
module Detection {
  import opened CRuntime
  import opened Shapes
  import opened Pools

  /** The three kinds of falling object. */
  datatype Kind = AsteroidKind | BoulderKind | FragmentKind

  /** The stencil a target of this kind is tested with. */
  function Shape(k: Kind): (st: Stencil)
    ensures ValidStencil(st) && st.w <= 7
  {
    match k
    case AsteroidKind => Asteroid
    case BoulderKind => Boulder
    case FragmentKind => Fragment
  }

  /** Points for hitting a target: asteroids 1, boulders 2, fragments 4. */
  function Reward(k: Kind): (n: nat)
    ensures n == 1 || n == 2 || n == 4
    ensures k == AsteroidKind <==> n == 1
    ensures k == FragmentKind <==> n == 4
  {
    match k
    case AsteroidKind => 1
    case BoulderKind => 2
    case FragmentKind => 4
  }

  /** The x a hit plasma bolt is moved to, off the left of the screen. */
  const PlasmaMark: real := -999.0

  /** `asteroid_hit_by_plasma` and its siblings: `pixel_collision` of the target's stencil at its
      position and the 2x2 plasma stencil at the bolt's, the `double` coordinates converted to
      `int` by truncation toward zero. */
  predicate HitTest(st: Stencil, t: Entity, p: Entity)
    requires ValidStencil(st)
  {
    assert ValidStencil(Plasma);
    PixelCollision(st, TruncToInt(t.x), TruncToInt(t.y), Plasma, TruncToInt(p.x), TruncToInt(p.y))
  }

  /** One hit: the bolt's index, the target's index and the target as it was when hit (the
      spawn reads its position and heading before it is marked). */
  datatype Hit = Hit(plasma: nat, target: nat, was: Entity)

  /** The plasma and target slots after a detection pass, and its hits in order. */
  datatype Sweep = Sweep(plasmas: seq<Entity>, targets: seq<Entity>, hits: seq<Hit>)

  /** The bolts that take part in the hits. */
  function PlasmasOf(hits: seq<Hit>): set<nat> {
    if |hits| == 0 then {} else {hits[0].plasma} + PlasmasOf(hits[1..])
  }

  /** The targets that take part in the hits. */
  function TargetsOf(hits: seq<Hit>): set<nat> {
    if |hits| == 0 then {} else {hits[0].target} + TargetsOf(hits[1..])
  }

  lemma OfCons(h: Hit, rest: seq<Hit>)
    ensures PlasmasOf([h] + rest) == {h.plasma} + PlasmasOf(rest)
    ensures TargetsOf([h] + rest) == {h.target} + TargetsOf(rest)
  {
    assert ([h] + rest)[1..] == rest;
  }

  /** Detection marks: a hit bolt moves to x = -999 and a hit target to x = VANISH, nothing else
      of theirs changes. */
  function MarkPlasma(p: Entity): Entity {
    p.(x := PlasmaMark)
  }

  function MarkTarget(t: Entity): Entity {
    t.(x := Vanish)
  }

  /** The nested loop from bolt `a`, target `b`: every live bolt is tested against every live
      target, bolts outermost; a hit marks both and is recorded. */
  function DetectFrom(ps: seq<Entity>, np: nat, ts: seq<Entity>, nt: nat, st: Stencil, a: nat, b: nat): (r: Sweep)
    requires ValidStencil(st) && np <= |ps| && nt <= |ts| && a <= np && b <= nt
    ensures |r.plasmas| == |ps| && |r.targets| == |ts|
    decreases np - a, nt - b
  {
    if a >= np then Sweep(ps, ts, [])
    else if b >= nt then DetectFrom(ps, np, ts, nt, st, a + 1, 0)
    else if HitTest(st, ts[b], ps[a]) then
      var rest := DetectFrom(ps[a := MarkPlasma(ps[a])], np, ts[b := MarkTarget(ts[b])], nt, st, a, b + 1);
      Sweep(rest.plasmas, rest.targets, [Hit(a, b, ts[b])] + rest.hits)
    else DetectFrom(ps, np, ts, nt, st, a, b + 1)
  }

  /** What a pass changes: the bolts and targets of the hits are live ones, each gets its mark,
      and every other slot is untouched. */
  ghost predicate MarksOnly(ps: seq<Entity>, np: nat, ts: seq<Entity>, nt: nat, a: nat, r: Sweep) {
    |r.plasmas| == |ps| && |r.targets| == |ts|
    && (forall i :: i in PlasmasOf(r.hits) ==> a <= i < np)
    && (forall j :: j in TargetsOf(r.hits) ==> j < nt)
    && (forall i :: 0 <= i < |ps| ==>
         r.plasmas[i] == if i in PlasmasOf(r.hits) then MarkPlasma(ps[i]) else ps[i])
    && (forall j :: 0 <= j < |ts| ==>
         r.targets[j] == if j in TargetsOf(r.hits) then MarkTarget(ts[j]) else ts[j])
  }

  lemma {:induction false} MarksFrom(ps: seq<Entity>, np: nat, ts: seq<Entity>, nt: nat, st: Stencil, a: nat, b: nat)
    requires ValidStencil(st) && np <= |ps| && nt <= |ts| && a <= np && b <= nt
    ensures MarksOnly(ps, np, ts, nt, a, DetectFrom(ps, np, ts, nt, st, a, b))
    decreases np - a, nt - b
  {
    if a >= np {
    } else if b >= nt {
      MarksFrom(ps, np, ts, nt, st, a + 1, 0);
    } else if HitTest(st, ts[b], ps[a]) {
      var ps' := ps[a := MarkPlasma(ps[a])];
      var ts' := ts[b := MarkTarget(ts[b])];
      MarksFrom(ps', np, ts', nt, st, a, b + 1);
      MarksAfterHit(ps, np, ts, nt, a, b, DetectFrom(ps', np, ts', nt, st, a, b + 1));
    } else {
      MarksFrom(ps, np, ts, nt, st, a, b + 1);
    }
  }

  lemma MarksAfterHit(ps: seq<Entity>, np: nat, ts: seq<Entity>, nt: nat, a: nat, b: nat, rest: Sweep)
    requires a < np <= |ps| && b < nt <= |ts|
    requires MarksOnly(ps[a := MarkPlasma(ps[a])], np, ts[b := MarkTarget(ts[b])], nt, a, rest)
    ensures MarksOnly(ps, np, ts, nt, a, Sweep(rest.plasmas, rest.targets, [Hit(a, b, ts[b])] + rest.hits))
  {
    OfCons(Hit(a, b, ts[b]), rest.hits);
  }

  /** One detection pass over the live bolts and the live targets of one kind. */
  function Detect(plasmas: Pool, targets: Pool, kind: Kind): (r: Sweep)
    requires ValidPool(plasmas) && ValidPool(targets)
    ensures |r.plasmas| == |plasmas.slots| && |r.targets| == |targets.slots|
  {
    DetectFrom(plasmas.slots, plasmas.count, targets.slots, targets.count, Shape(kind), 0, 0)
  }

  /** A pass only marks: every hit names a live bolt and a live target, those get x = -999 and
      x = VANISH, and nothing else in either list changes. */
  lemma DetectMarks(plasmas: Pool, targets: Pool, kind: Kind)
    requires ValidPool(plasmas) && ValidPool(targets)
    ensures MarksOnly(plasmas.slots, plasmas.count, targets.slots, targets.count, 0, Detect(plasmas, targets, kind))
  {
    MarksFrom(plasmas.slots, plasmas.count, targets.slots, targets.count, Shape(kind), 0, 0);
  }

  /** The pairs the loop has still to test when it stands at bolt `a`, target `b`. */
  predicate Pending(np: nat, nt: nat, a: nat, b: nat, i: nat, j: nat) {
    (a < i < np && j < nt) || (i == a < np && b <= j < nt)
  }

  /** Every pending pair that collides has a member in some hit. */
  ghost predicate Cleared(ps: seq<Entity>, np: nat, ts: seq<Entity>, nt: nat, st: Stencil, a: nat, b: nat, hits: seq<Hit>)
    requires ValidStencil(st) && np <= |ps| && nt <= |ts|
  {
    forall i: nat, j: nat :: Pending(np, nt, a, b, i, j) && i !in PlasmasOf(hits) && j !in TargetsOf(hits) ==>
      !HitTest(st, ts[j], ps[i])
  }

  lemma {:induction false} ClearsFrom(ps: seq<Entity>, np: nat, ts: seq<Entity>, nt: nat, st: Stencil, a: nat, b: nat)
    requires ValidStencil(st) && np <= |ps| && nt <= |ts| && a <= np && b <= nt
    ensures Cleared(ps, np, ts, nt, st, a, b, DetectFrom(ps, np, ts, nt, st, a, b).hits)
    decreases np - a, nt - b
  {
    if a >= np {
    } else if b >= nt {
      ClearsFrom(ps, np, ts, nt, st, a + 1, 0);
      ClearedNextBolt(ps, np, ts, nt, st, a, b, DetectFrom(ps, np, ts, nt, st, a + 1, 0).hits);
    } else if HitTest(st, ts[b], ps[a]) {
      var ps' := ps[a := MarkPlasma(ps[a])];
      var ts' := ts[b := MarkTarget(ts[b])];
      ClearsFrom(ps', np, ts', nt, st, a, b + 1);
      ClearedAfterHit(ps, np, ts, nt, st, a, b, DetectFrom(ps', np, ts', nt, st, a, b + 1).hits);
    } else {
      ClearsFrom(ps, np, ts, nt, st, a, b + 1);
      ClearedAfterMiss(ps, np, ts, nt, st, a, b, DetectFrom(ps, np, ts, nt, st, a, b + 1).hits);
    }
  }

  lemma ClearedNextBolt(ps: seq<Entity>, np: nat, ts: seq<Entity>, nt: nat, st: Stencil, a: nat, b: nat, hits: seq<Hit>)
    requires ValidStencil(st) && np <= |ps| && nt <= |ts| && a < np && nt <= b
    requires Cleared(ps, np, ts, nt, st, a + 1, 0, hits)
    ensures Cleared(ps, np, ts, nt, st, a, b, hits)
  {
    forall i: nat, j: nat | Pending(np, nt, a, b, i, j)
      ensures Pending(np, nt, a + 1, 0, i, j)
    {
    }
  }

  lemma ClearedAfterMiss(ps: seq<Entity>, np: nat, ts: seq<Entity>, nt: nat, st: Stencil, a: nat, b: nat, hits: seq<Hit>)
    requires ValidStencil(st) && np <= |ps| && nt <= |ts| && a < np && b < nt
    requires !HitTest(st, ts[b], ps[a])
    requires Cleared(ps, np, ts, nt, st, a, b + 1, hits)
    ensures Cleared(ps, np, ts, nt, st, a, b, hits)
  {
    forall i: nat, j: nat | Pending(np, nt, a, b, i, j) && (i, j) != (a, b)
      ensures Pending(np, nt, a, b + 1, i, j)
    {
    }
  }

  /** A hit at (a, b) takes bolt `a` and target `b` out of every later pair; the other pairs
      are tested on unchanged objects. */
  lemma ClearedAfterHit(ps: seq<Entity>, np: nat, ts: seq<Entity>, nt: nat, st: Stencil, a: nat, b: nat, rest: seq<Hit>)
    requires ValidStencil(st) && np <= |ps| && nt <= |ts| && a < np && b < nt
    requires Cleared(ps[a := MarkPlasma(ps[a])], np, ts[b := MarkTarget(ts[b])], nt, st, a, b + 1, rest)
    ensures Cleared(ps, np, ts, nt, st, a, b, [Hit(a, b, ts[b])] + rest)
  {
    var ps' := ps[a := MarkPlasma(ps[a])];
    var ts' := ts[b := MarkTarget(ts[b])];
    var hits := [Hit(a, b, ts[b])] + rest;
    OfCons(Hit(a, b, ts[b]), rest);
    forall i: nat, j: nat | Pending(np, nt, a, b, i, j) && i !in PlasmasOf(hits) && j !in TargetsOf(hits)
      ensures !HitTest(st, ts[j], ps[i])
    {
      assert Pending(np, nt, a, b + 1, i, j);
      assert ps'[i] == ps[i] && ts'[j] == ts[j];
    }
  }

  /** After a pass no bolt that is still unmarked overlaps a target that is still unmarked:
      for every live bolt and live target that collided when the pass began, one of them took
      part in a hit. */
  lemma DetectClears(plasmas: Pool, targets: Pool, kind: Kind)
    requires ValidPool(plasmas) && ValidPool(targets)
    ensures var r := Detect(plasmas, targets, kind);
      forall i, j :: (0 <= i < plasmas.count && 0 <= j < targets.count
                      && i !in PlasmasOf(r.hits) && j !in TargetsOf(r.hits)) ==>
        (r.plasmas[i] == plasmas.slots[i] && r.targets[j] == targets.slots[j]
         && !HitTest(Shape(kind), targets.slots[j], plasmas.slots[i]))
  {
    ClearsFrom(plasmas.slots, plasmas.count, targets.slots, targets.count, Shape(kind), 0, 0);
    DetectMarks(plasmas, targets, kind);
    var r := Detect(plasmas, targets, kind);
    forall i, j | 0 <= i < plasmas.count && 0 <= j < targets.count
                  && i !in PlasmasOf(r.hits) && j !in TargetsOf(r.hits)
      ensures !HitTest(Shape(kind), targets.slots[j], plasmas.slots[i])
    {
      assert Pending(plasmas.count, targets.count, 0, 0, i, j);
    }
  }

  /** A live object's x is on or near the screen; a marked one carries its mark. */
  predicate PlasmaOk(p: Entity) {
    p.x == PlasmaMark || -900.0 <= p.x <= 900.0
  }

  predicate TargetOk(t: Entity) {
    t.x == Vanish || -900.0 <= t.x <= 900.0
  }

  predicate AllOk(ps: seq<Entity>, np: nat, ts: seq<Entity>, nt: nat)
    requires np <= |ps| && nt <= |ts|
  {
    (forall i :: 0 <= i < np ==> PlasmaOk(ps[i])) && (forall j :: 0 <= j < nt ==> TargetOk(ts[j]))
  }

  lemma MarkKeepsOk(ps: seq<Entity>, np: nat, ts: seq<Entity>, nt: nat, a: nat, b: nat)
    requires a < np <= |ps| && b < nt <= |ts| && AllOk(ps, np, ts, nt)
    ensures AllOk(ps[a := MarkPlasma(ps[a])], np, ts[b := MarkTarget(ts[b])], nt)
  {
  }

  /** A marked bolt is far left of every target near the screen, and a marked target far right
      of every bolt near the screen, so neither can be hit again. */
  lemma MarkedMiss(st: Stencil, t: Entity, p: Entity)
    requires ValidStencil(st) && st.w <= 7 && PlasmaOk(p) && TargetOk(t)
    requires p.x == PlasmaMark || t.x == Vanish
    ensures !HitTest(st, t, p)
  {
    assert ValidStencil(Plasma);
    var tx := TruncToInt(t.x);
    var px := TruncToInt(p.x);
    if p.x == PlasmaMark {
      assert px == -999;
      assert tx >= -900;
    } else {
      assert tx == 999 && px <= 900;
    }
    DisjointBoxesMiss(st, tx, TruncToInt(t.y), Plasma, px, TruncToInt(p.y));
  }

  /** What one hit promises: the bolt and target were both unmarked and collided, and the hit
      records the target as it was. */
  predicate GenuineHit(st: Stencil, ps: seq<Entity>, ts: seq<Entity>, h: Hit)
    requires ValidStencil(st)
  {
    h.plasma < |ps| && h.target < |ts|
    && ps[h.plasma].x != PlasmaMark && ts[h.target].x != Vanish
    && h.was == ts[h.target] && HitTest(st, ts[h.target], ps[h.plasma])
  }

  /** No bolt and no target appears in two hits. */
  predicate Distinct(hits: seq<Hit>) {
    |hits| == 0
    || (hits[0].plasma !in PlasmasOf(hits[1..]) && hits[0].target !in TargetsOf(hits[1..]) && Distinct(hits[1..]))
  }

  /** Every hit is genuine. */
  predicate AllGenuine(st: Stencil, ps: seq<Entity>, ts: seq<Entity>, hits: seq<Hit>)
    requires ValidStencil(st)
  {
    forall k :: 0 <= k < |hits| ==> GenuineHit(st, ps, ts, hits[k])
  }

  lemma {:induction false} OnceFrom(ps: seq<Entity>, np: nat, ts: seq<Entity>, nt: nat, st: Stencil, a: nat, b: nat)
    requires ValidStencil(st) && st.w <= 7 && np <= |ps| && nt <= |ts| && a <= np && b <= nt
    requires AllOk(ps, np, ts, nt)
    ensures var r := DetectFrom(ps, np, ts, nt, st, a, b);
      Distinct(r.hits) && AllGenuine(st, ps, ts, r.hits)
    decreases np - a, nt - b
  {
    if a >= np {
    } else if b >= nt {
      OnceFrom(ps, np, ts, nt, st, a + 1, 0);
    } else if HitTest(st, ts[b], ps[a]) {
      var ps' := ps[a := MarkPlasma(ps[a])];
      var ts' := ts[b := MarkTarget(ts[b])];
      MarkKeepsOk(ps, np, ts, nt, a, b);
      OnceFrom(ps', np, ts', nt, st, a, b + 1);
      if ps[a].x == PlasmaMark || ts[b].x == Vanish {
        MarkedMiss(st, ts[b], ps[a]);
      }
      OnceAfterHit(ps, ts, st, a, b, DetectFrom(ps', np, ts', nt, st, a, b + 1).hits);
    } else {
      OnceFrom(ps, np, ts, nt, st, a, b + 1);
    }
  }

  /** A genuine hit of unmarked objects, followed by genuine hits among the objects as marked
      by it: none of the later hits can involve the two just marked. */
  lemma OnceAfterHit(ps: seq<Entity>, ts: seq<Entity>, st: Stencil, a: nat, b: nat, rest: seq<Hit>)
    requires ValidStencil(st) && a < |ps| && b < |ts|
    requires ps[a].x != PlasmaMark && ts[b].x != Vanish && HitTest(st, ts[b], ps[a])
    requires Distinct(rest) && AllGenuine(st, ps[a := MarkPlasma(ps[a])], ts[b := MarkTarget(ts[b])], rest)
    ensures Distinct([Hit(a, b, ts[b])] + rest) && AllGenuine(st, ps, ts, [Hit(a, b, ts[b])] + rest)
  {
    var ps' := ps[a := MarkPlasma(ps[a])];
    var ts' := ts[b := MarkTarget(ts[b])];
    var hits := [Hit(a, b, ts[b])] + rest;
    assert hits[1..] == rest;
    NotInvolved(ps', ts', st, a, b, rest);
    forall k | 0 <= k < |hits|
      ensures GenuineHit(st, ps, ts, hits[k])
    {
      if k > 0 {
        assert hits[k] == rest[k - 1];
        assert GenuineHit(st, ps', ts', rest[k - 1]);
      }
    }
  }

  /** Genuine hits never involve a marked bolt or a marked target. */
  lemma {:induction false} NotInvolved(ps: seq<Entity>, ts: seq<Entity>, st: Stencil, a: nat, b: nat, hits: seq<Hit>)
    requires ValidStencil(st) && a < |ps| && b < |ts| && ps[a].x == PlasmaMark && ts[b].x == Vanish
    requires AllGenuine(st, ps, ts, hits)
    ensures a !in PlasmasOf(hits) && b !in TargetsOf(hits)
  {
    if |hits| > 0 {
      assert GenuineHit(st, ps, ts, hits[0]);
      assert AllGenuine(st, ps, ts, hits[1..]) by {
        forall k | 0 <= k < |hits[1..]| ensures GenuineHit(st, ps, ts, hits[1..][k]) {
          assert hits[1..][k] == hits[k + 1];
        }
      }
      NotInvolved(ps, ts, st, a, b, hits[1..]);
    }
  }

  /** While every live x is within 900 of the screen, no bolt and no target is counted twice in
      one pass, and every hit is a real collision of two unmarked objects. */
  lemma DetectCountsOnce(plasmas: Pool, targets: Pool, kind: Kind)
    requires ValidPool(plasmas) && ValidPool(targets)
    requires AllOk(plasmas.slots, plasmas.count, targets.slots, targets.count)
    ensures var r := Detect(plasmas, targets, kind);
      Distinct(r.hits) && |r.hits| <= plasmas.count && |r.hits| <= targets.count
      && AllGenuine(Shape(kind), plasmas.slots, targets.slots, r.hits)
  {
    OnceFrom(plasmas.slots, plasmas.count, targets.slots, targets.count, Shape(kind), 0, 0);
    DetectMarks(plasmas, targets, kind);
    var r := Detect(plasmas, targets, kind);
    DistinctSizes(r.hits);
    BelowBound(PlasmasOf(r.hits), plasmas.count);
    BelowBound(TargetsOf(r.hits), targets.count);
  }

  /** Distinct hits involve as many bolts, and as many targets, as there are hits. */
  lemma {:induction false} DistinctSizes(hits: seq<Hit>)
    requires Distinct(hits)
    ensures |PlasmasOf(hits)| == |hits| && |TargetsOf(hits)| == |hits|
  {
    if |hits| > 0 {
      DistinctSizes(hits[1..]);
    }
  }

  /** A set of naturals below `n` has at most `n` members. */
  lemma {:induction false} BelowBound(s: set<nat>, n: nat)
    requires forall x :: x in s ==> x < n
    ensures |s| <= n
  {
    if n > 0 {
      BelowBound(s - {n - 1}, n - 1);
    } else {
      assert s == {};
    }
  }

  /** The spawns of a pass over asteroids: two boulders per hit, at the asteroid's x + 1 and
      its y, each pair taking the next two draws of `rand()`. */
  function SpawnBouldersFor(p: Pool, hits: seq<Hit>, rand: nat -> nat, drawn: nat): (q: Pool)
    requires ValidPool(p)
    ensures ValidPool(q) && q.count == p.count + 2 * |hits|
    ensures |q.slots| >= |p.slots|
    ensures forall i :: 0 <= i < p.count ==> q.slots[i] == p.slots[i]
    decreases |hits|
  {
    if |hits| == 0 then p
    else
      var h := hits[0];
      SpawnBouldersFor(SpawnBoulders(p, h.was.x + 1.0, h.was.y, rand(drawn), rand(drawn + 1)), hits[1..], rand, drawn + 2)
  }

  /** The spawns of a pass over boulders: two fragments per hit, at the boulder's position and
      around its heading. */
  function SpawnFragmentsFor(p: Pool, hits: seq<Hit>, rand: nat -> nat, drawn: nat): (q: Pool)
    requires ValidPool(p)
    ensures ValidPool(q) && q.count == p.count + 2 * |hits|
    ensures |q.slots| >= |p.slots|
    ensures forall i :: 0 <= i < p.count ==> q.slots[i] == p.slots[i]
    decreases |hits|
  {
    if |hits| == 0 then p
    else
      var h := hits[0];
      SpawnFragmentsFor(SpawnFragments(p, h.was.x, h.was.y, h.was.angle, rand(drawn), rand(drawn + 1)), hits[1..], rand, drawn + 2)
  }

  /** The four lists, the score and the number of `rand()` draws used so far. */
  datatype Field = Field(plasmas: Pool, asteroids: Pool, boulders: Pool, fragments: Pool, score: int, drawn: nat)

  predicate ValidField(f: Field) {
    ValidPool(f.plasmas) && ValidPool(f.asteroids) && ValidPool(f.boulders) && ValidPool(f.fragments)
  }

  /** The result of `collision_detection` and the number of hits of each pass. */
  datatype Outcome = Outcome(field: Field, asteroidHits: nat, boulderHits: nat, fragmentHits: nat)

  /** `collision_detection`: asteroids, then boulders (including any just spawned), then
      fragments. In the program each spawn happens at the moment of its hit; the list it
      appends to is not read by the pass that triggers it, so spawning in hit order after the
      pass gives the same lists. */
  function CollisionDetection(f: Field, rand: nat -> nat): (o: Outcome)
    requires ValidField(f)
    ensures ValidField(o.field)
    ensures |o.field.plasmas.slots| == |f.plasmas.slots| && |o.field.asteroids.slots| == |f.asteroids.slots|
    ensures |o.field.boulders.slots| >= |f.boulders.slots| && |o.field.fragments.slots| >= |f.fragments.slots|
    ensures o.field.plasmas.count == f.plasmas.count && o.field.asteroids.count == f.asteroids.count
    ensures o.field.boulders.count == f.boulders.count + 2 * o.asteroidHits
    ensures o.field.fragments.count == f.fragments.count + 2 * o.boulderHits
    ensures o.field.drawn == f.drawn + 2 * (o.asteroidHits + o.boulderHits)
    ensures o.field.score == f.score + o.asteroidHits + 2 * o.boulderHits + 4 * o.fragmentHits
  {
    var ra := Detect(f.plasmas, f.asteroids, AsteroidKind);
    var boulders := SpawnBouldersFor(f.boulders, ra.hits, rand, f.drawn);
    var rb := Detect(Pool(ra.plasmas, f.plasmas.count), boulders, BoulderKind);
    var fragments := SpawnFragmentsFor(f.fragments, rb.hits, rand, f.drawn + 2 * |ra.hits|);
    var rf := Detect(Pool(rb.plasmas, f.plasmas.count), fragments, FragmentKind);
    var score := f.score + Reward(AsteroidKind) * |ra.hits| + Reward(BoulderKind) * |rb.hits|
                 + Reward(FragmentKind) * |rf.hits|;
    var g := Field(Pool(rf.plasmas, f.plasmas.count), Pool(ra.targets, f.asteroids.count),
                   Pool(rb.targets, boulders.count), Pool(rf.targets, fragments.count),
                   score, f.drawn + 2 * |ra.hits| + 2 * |rb.hits|);
    Outcome(g, |ra.hits|, |rb.hits|, |rf.hits|)
  }
}
