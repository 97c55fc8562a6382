/** The once-per-tick passes over all ships: bullets (`handleBullets` in
    gameServer.py, and the swept variant in gameClient.py), barriers
    (`handleBarriers`, the same code in both files) and respawns
    (`handleRespawns` in gameServer.py). Ships are a map from id to ship
    and a list of ids giving Python's dictionary iteration order. */
module Arena {
  import opened Seqs
  import opened Geometry
  import opened Entities

  /** The four walls around the 1900 x 900 field. */
  const Barriers: seq<Rect> := [
    Rect(0, 0, 1900, 40),
    Rect(0, 860, 1900, 40),
    Rect(0, 0, 40, 900),
    Rect(1860, 0, 40, 900)
  ]

  /** The neighbours of a ship: every other id, in dictionary order. */
  function Neighbours(order: seq<ShipId>, key: ShipId, m: map<ShipId, Ship>): (nbrs: seq<ShipId>)
    requires key in order && InMap(order, m)
    ensures InMap(nbrs, m)
    ensures Distinct(order) ==> Distinct(nbrs) && forall k :: k in nbrs <==> k in order && k != key
  {
    if Distinct(order) then
      RemoveFirstDistinct(order, key);
      RemoveFirst(order, key)
    else
      RemoveFirst(order, key)
  }

  /** The neighbours keep dictionary order: they are the ids before the
      ship's first occurrence followed by the ids after it. */
  lemma NeighboursInOrder(order: seq<ShipId>, key: ShipId, m: map<ShipId, Ship>)
    requires key in order && InMap(order, m)
    ensures exists i | 0 <= i < |order| ::
              order[i] == key && key !in order[..i] && Neighbours(order, key, m) == order[..i] + order[i + 1..]
  {
    RemoveFirstInOrder(order, key);
  }

  // ---------------------------------------------------------------- bullets

  /** How a flying bullet is checked against a ship: the server checks the
      bullet's new rect only; the client checks every rect of its sweep. */
  datatype Probe = Direct | Swept

  /** Whether a bullet that flew from corner `from` to rect `b` strikes the
      ship rect `target`. */
  function Strikes(probe: Probe, phys: Physics, from: (int, int), b: Rect, target: Rect): bool {
    match probe
    case Direct => Overlaps(b, target)
    case Swept => CollideList(target, phys.sweep(from.0, from.1, b)) != -1
  }

  /** The swept test counts a hit anywhere along the path. */
  lemma SweptStrikesAnywhere(phys: Physics, from: (int, int), b: Rect, target: Rect)
    ensures Strikes(Swept, phys, from, b, target) <==>
              exists j | 0 <= j < |phys.sweep(from.0, from.1, b)| :: Overlaps(target, phys.sweep(from.0, from.1, b)[j])
  {
  }

  predicate HasRects(keys: seq<ShipId>, rects: map<ShipId, Rect>) {
    forall j | 0 <= j < |keys| :: keys[j] in rects
  }

  /** Whether the bullet strikes any ship listed. */
  function StrikesAny(keys: seq<ShipId>, rects: map<ShipId, Rect>, probe: Probe, phys: Physics,
                      from: (int, int), b: Rect): (r: bool)
    requires HasRects(keys, rects)
    ensures r <==> exists j | 0 <= j < |keys| :: Strikes(probe, phys, from, b, rects[keys[j]])
    decreases |keys|
  {
    if keys == [] then false
    else
      assert forall j | 1 <= j < |keys| :: keys[j] == keys[1..][j - 1];
      Strikes(probe, phys, from, b, rects[keys[0]]) || StrikesAny(keys[1..], rects, probe, phys, from, b)
  }

  /** A bullet's state after its turn: it has flown one step and, if it
      struck any ship, its age is forced to the tombstone value. */
  function BulletAfter(b: Bullet, keys: seq<ShipId>, rects: map<ShipId, Rect>, probe: Probe,
                       phys: Physics, now: real): (r: Bullet)
    requires HasRects(keys, rects)
    ensures StrikesAny(keys, rects, probe, phys, (b.rect.x, b.rect.y), Fly(b, phys, now).rect) ==>
              r == Fly(b, phys, now).(age := Tombstone) && !Live(r)
    ensures !StrikesAny(keys, rects, probe, phys, (b.rect.x, b.rect.y), Fly(b, phys, now).rect) ==>
              r == Fly(b, phys, now)
  {
    var f := Fly(b, phys, now);
    if StrikesAny(keys, rects, probe, phys, (b.rect.x, b.rect.y), f.rect) then f.(age := Tombstone) else f
  }

  /** Every bullet of a gun after its turn. */
  function Flown(bs: seq<Bullet>, keys: seq<ShipId>, rects: map<ShipId, Rect>, probe: Probe,
                 phys: Physics, now: real): (r: seq<Bullet>)
    requires HasRects(keys, rects)
    ensures |r| == |bs|
    ensures forall i | 0 <= i < |bs| ::
              var f := Fly(bs[i], phys, now);
              r[i] == if StrikesAny(keys, rects, probe, phys, (bs[i].rect.x, bs[i].rect.y), f.rect)
                      then f.(age := Tombstone) else f
  {
    seq(|bs|, i requires 0 <= i < |bs| => BulletAfter(bs[i], keys, rects, probe, phys, now))
  }

  /** The damage half of one bullet's turn: each listed ship whose rect it
      strikes takes 1 damage, in list order. */
  function Damage(m: map<ShipId, Ship>, keys: seq<ShipId>, rects: map<ShipId, Rect>, probe: Probe,
                  phys: Physics, from: (int, int), b: Rect): (r: map<ShipId, Ship>)
    requires InMap(keys, m) && HasRects(keys, rects)
    ensures r.Keys == m.Keys
    ensures forall k | k in m :: r[k] == m[k].(hitpoints := r[k].hitpoints)
    ensures forall k | k in m :: r[k].hitpoints <= m[k].hitpoints
    ensures forall k | k in m && 0 <= m[k].hitpoints :: 0 <= r[k].hitpoints
    decreases |keys|
  {
    if keys == [] then m
    else
      var k := keys[0];
      var m1 := if Strikes(probe, phys, from, b, rects[k]) then m[k := TakeDamage(m[k], 1)] else m;
      Damage(m1, keys[1..], rects, probe, phys, from, b)
  }

  /** Each ship of a list without repetitions loses exactly one hitpoint
      (as `takeDamage(1)`) when the bullet strikes it, whoever fired it, and
      no other ship changes. */
  lemma {:induction false} DamageStrikesEachOnce(m: map<ShipId, Ship>, keys: seq<ShipId>, rects: map<ShipId, Rect>,
                                                 probe: Probe, phys: Physics, from: (int, int), b: Rect)
    requires InMap(keys, m) && HasRects(keys, rects) && Distinct(keys)
    ensures forall k | k in m ::
              Damage(m, keys, rects, probe, phys, from, b)[k] ==
                if k in keys && Strikes(probe, phys, from, b, rects[k]) then TakeDamage(m[k], 1) else m[k]
    decreases |keys|
  {
    if keys != [] {
      var k0 := keys[0];
      var tail := keys[1..];
      var m1 := if Strikes(probe, phys, from, b, rects[k0]) then m[k0 := TakeDamage(m[k0], 1)] else m;
      assert Distinct(tail);
      assert k0 !in tail;
      assert forall k :: k in keys <==> k == k0 || k in tail;
      DamageStrikesEachOnce(m1, tail, rects, probe, phys, from, b);
    }
  }

  /** The damage of all bullets of one gun, one bullet after another. */
  function Volley(m: map<ShipId, Ship>, bs: seq<Bullet>, keys: seq<ShipId>, rects: map<ShipId, Rect>,
                  probe: Probe, phys: Physics, now: real): (r: map<ShipId, Ship>)
    requires InMap(keys, m) && HasRects(keys, rects)
    ensures r.Keys == m.Keys
    ensures forall k | k in m :: r[k] == m[k].(hitpoints := r[k].hitpoints)
    ensures forall k | k in m :: r[k].hitpoints <= m[k].hitpoints
    ensures forall k | k in m && 0 <= m[k].hitpoints :: 0 <= r[k].hitpoints
    decreases |bs|
  {
    if bs == [] then m
    else
      var b := bs[0];
      var m1 := Damage(m, keys, rects, probe, phys, (b.rect.x, b.rect.y), Fly(b, phys, now).rect);
      Volley(m1, bs[1..], keys, rects, probe, phys, now)
  }

  /** Every bullet in the gun is live. */
  predicate AllLive(g: Gun) {
    forall i | 0 <= i < |g.bullets| :: Live(g.bullets[i])
  }

  /** One gun's turn: every bullet flies and deals its damage, then the gun
      drops its expired bullets. */
  function GunTurn(m: map<ShipId, Ship>, id: ShipId, keys: seq<ShipId>, rects: map<ShipId, Rect>,
                   probe: Probe, phys: Physics, now: real): (r: map<ShipId, Ship>)
    requires id in m && InMap(keys, m) && HasRects(keys, rects)
    ensures r.Keys == m.Keys
    ensures forall k | k in m :: r[k] == m[k].(hitpoints := r[k].hitpoints, gun := r[k].gun)
    ensures forall k | k in m :: r[k].hitpoints <= m[k].hitpoints
    ensures forall k | k in m && 0 <= m[k].hitpoints :: 0 <= r[k].hitpoints
    ensures forall k | k in m && k != id :: r[k].gun == m[k].gun
    ensures r[id].gun.bullets == ExpireOldBullets(Flown(m[id].gun.bullets, keys, rects, probe, phys, now))
    ensures AllLive(r[id].gun)
  {
    var bs := m[id].gun.bullets;
    var m1 := Volley(m, bs, keys, rects, probe, phys, now);
    Reload(m1, id, ExpireOldBullets(Flown(bs, keys, rects, probe, phys, now)))
  }

  /** The ship `id` with its gun's bullets replaced; every other ship as it was. */
  function Reload(m: map<ShipId, Ship>, id: ShipId, bullets: seq<Bullet>): (r: map<ShipId, Ship>)
    requires id in m
    ensures r.Keys == m.Keys
    ensures r[id] == m[id].(gun := m[id].gun.(bullets := bullets))
    ensures forall k | k in m && k != id :: r[k] == m[k]
  {
    m[id := m[id].(gun := m[id].gun.(bullets := bullets))]
  }

  /** The gun-by-gun loop over the ships in `todo`. */
  function GunTurns(m: map<ShipId, Ship>, todo: seq<ShipId>, keys: seq<ShipId>, rects: map<ShipId, Rect>,
                    probe: Probe, phys: Physics, now: real): (r: map<ShipId, Ship>)
    requires InMap(todo, m) && InMap(keys, m) && HasRects(keys, rects)
    ensures r.Keys == m.Keys
    ensures forall k | k in m :: r[k] == m[k].(hitpoints := r[k].hitpoints, gun := r[k].gun)
    ensures forall k | k in m :: r[k].hitpoints <= m[k].hitpoints
    ensures forall k | k in m && 0 <= m[k].hitpoints :: 0 <= r[k].hitpoints
    ensures forall k | k in m && k !in todo :: r[k].gun == m[k].gun
    ensures forall k | k in todo && k in r :: AllLive(r[k].gun)
    decreases |todo|
  {
    if todo == [] then m
    else
      var m1 := GunTurn(m, todo[0], keys, rects, probe, phys, now);
      var r := GunTurns(m1, todo[1..], keys, rects, probe, phys, now);
      assert forall k | k in todo :: k == todo[0] || k in todo[1..];
      r
  }

  /** `handleBullets`: the ships' rects are taken once up front; then the
      guns take their turns in dictionary order. Afterwards every listed gun
      holds only live bullets, hitpoints have not risen, and nothing but
      hitpoints and guns has changed. */
  function BulletsPass(m: map<ShipId, Ship>, order: seq<ShipId>, probe: Probe, phys: Physics, now: real): (r: map<ShipId, Ship>)
    requires InMap(order, m)
    ensures r.Keys == m.Keys
    ensures forall k | k in m :: r[k] == m[k].(hitpoints := r[k].hitpoints, gun := r[k].gun)
    ensures forall k | k in m :: r[k].hitpoints <= m[k].hitpoints
    ensures AllSane(m) ==> AllSane(r)
    ensures forall k | k in order && k in r :: AllLive(r[k].gun)
  {
    var rects := map k | k in m :: m[k].rect;
    GunTurns(m, order, order, rects, probe, phys, now)
  }

  /** For ids without repetitions, each listed gun ends with exactly its
      flown bullets that are still live, in their original order; a bullet
      that struck a ship is among the removed. */
  lemma {:induction false} GunTurnsKeepFlownLive(m: map<ShipId, Ship>, todo: seq<ShipId>, keys: seq<ShipId>,
                                                 rects: map<ShipId, Rect>, probe: Probe, phys: Physics, now: real)
    requires InMap(todo, m) && InMap(keys, m) && HasRects(keys, rects) && Distinct(todo)
    ensures forall k | k in todo ::
              GunTurns(m, todo, keys, rects, probe, phys, now)[k].gun.bullets ==
                ExpireOldBullets(Flown(m[k].gun.bullets, keys, rects, probe, phys, now))
    decreases |todo|
  {
    if todo != [] {
      var id := todo[0];
      var tail := todo[1..];
      var m1 := GunTurn(m, id, keys, rects, probe, phys, now);
      assert Distinct(tail);
      assert id !in tail;
      GunTurnsKeepFlownLive(m1, tail, keys, rects, probe, phys, now);
      var r := GunTurns(m1, tail, keys, rects, probe, phys, now);
      forall k | k in todo
        ensures r[k].gun.bullets == ExpireOldBullets(Flown(m[k].gun.bullets, keys, rects, probe, phys, now))
      {
        if k != id {
          assert k in tail;
          assert m1[k].gun == m[k].gun;
        }
      }
    }
  }

  /** How many of the bullets `bs` strike the rect `target` on their next
      flight, each checked from its corner before the flight. */
  function Hits(bs: seq<Bullet>, target: Rect, probe: Probe, phys: Physics, now: real): nat
    decreases |bs|
  {
    if bs == [] then 0
    else
      var b := bs[0];
      (if Strikes(probe, phys, (b.rect.x, b.rect.y), Fly(b, phys, now).rect, target) then 1 else 0)
        + Hits(bs[1..], target, probe, phys, now)
  }

  /** How many (gun, bullet) pairs of the ships `todo` strike `target`. */
  function PassHits(m: map<ShipId, Ship>, todo: seq<ShipId>, target: Rect, probe: Probe, phys: Physics, now: real): nat
    requires InMap(todo, m)
    decreases |todo|
  {
    if todo == [] then 0
    else Hits(m[todo[0]].gun.bullets, target, probe, phys, now) + PassHits(m, todo[1..], target, probe, phys, now)
  }

  /** The count depends on the listed ships' guns only. */
  lemma {:induction false} PassHitsFrame(m: map<ShipId, Ship>, m': map<ShipId, Ship>, todo: seq<ShipId>,
                                         target: Rect, probe: Probe, phys: Physics, now: real)
    requires InMap(todo, m) && InMap(todo, m')
    requires forall j | 0 <= j < |todo| :: m'[todo[j]].gun == m[todo[j]].gun
    ensures PassHits(m', todo, target, probe, phys, now) == PassHits(m, todo, target, probe, phys, now)
    decreases |todo|
  {
    if todo != [] {
      PassHitsFrame(m, m', todo[1..], target, probe, phys, now);
    }
  }

  /** The hitpoints `takeDamage(d)` leaves from `hp`. */
  function Hurt(hp: int, d: nat): int {
    if hp > 0 then (if hp - d < 0 then 0 else hp - d) else hp
  }

  /** Damage dealt in two parts is damage dealt once. */
  lemma HurtAdds(hp: int, a: nat, b: nat, total: nat)
    requires total == a + b
    ensures Hurt(Hurt(hp, a), b) == Hurt(hp, total)
  {
  }

  /** For ids without repetitions, a volley takes from each listed ship
      exactly one hitpoint per bullet whose flight strikes it (as a single
      `takeDamage` of that count); unlisted ships are unchanged. */
  lemma VolleyCounts(m: map<ShipId, Ship>, bs: seq<Bullet>, keys: seq<ShipId>,
                     rects: map<ShipId, Rect>, probe: Probe, phys: Physics, now: real)
    requires InMap(keys, m) && HasRects(keys, rects) && Distinct(keys)
    ensures forall k | k in m ::
              Volley(m, bs, keys, rects, probe, phys, now)[k] ==
                if k in keys then TakeDamage(m[k], Hits(bs, rects[k], probe, phys, now)) else m[k]
  {
    forall k | k in m
      ensures Volley(m, bs, keys, rects, probe, phys, now)[k] ==
                if k in keys then TakeDamage(m[k], Hits(bs, rects[k], probe, phys, now)) else m[k]
    {
      VolleyAt(m, bs, keys, rects, probe, phys, now, k);
    }
  }

  /** `VolleyCounts` for one ship `k`, on its hitpoints. */
  lemma {:induction false} VolleyAt(m: map<ShipId, Ship>, bs: seq<Bullet>, keys: seq<ShipId>,
                                    rects: map<ShipId, Rect>, probe: Probe, phys: Physics, now: real, k: ShipId)
    requires InMap(keys, m) && HasRects(keys, rects) && Distinct(keys) && k in m
    ensures Volley(m, bs, keys, rects, probe, phys, now)[k].hitpoints ==
              Hurt(m[k].hitpoints, if k in keys then Hits(bs, rects[k], probe, phys, now) else 0)
    decreases |bs|
  {
    if bs != [] {
      var b := bs[0];
      var from := (b.rect.x, b.rect.y);
      var f := Fly(b, phys, now).rect;
      var m1 := Damage(m, keys, rects, probe, phys, from, f);
      DamageStrikesEachOnce(m, keys, rects, probe, phys, from, f);
      VolleyAt(m1, bs[1..], keys, rects, probe, phys, now, k);
      var first := if k in keys && Strikes(probe, phys, from, f, rects[k]) then 1 else 0;
      var rest := if k in keys then Hits(bs[1..], rects[k], probe, phys, now) else 0;
      assert m1[k].hitpoints == Hurt(m[k].hitpoints, first);
      HurtAdds(m[k].hitpoints, first, rest, if k in keys then Hits(bs, rects[k], probe, phys, now) else 0);
    }
  }

  /** One gun's turn takes from each listed ship one hitpoint per bullet of
      that gun whose flight strikes it. */
  lemma GunTurnCounts(m: map<ShipId, Ship>, id: ShipId, keys: seq<ShipId>, rects: map<ShipId, Rect>,
                      probe: Probe, phys: Physics, now: real)
    requires id in m && InMap(keys, m) && HasRects(keys, rects) && Distinct(keys)
    ensures forall k | k in m ::
              GunTurn(m, id, keys, rects, probe, phys, now)[k].hitpoints ==
                if k in keys then TakeDamage(m[k], Hits(m[id].gun.bullets, rects[k], probe, phys, now)).hitpoints
                else m[k].hitpoints
  {
    forall k | k in m
      ensures GunTurn(m, id, keys, rects, probe, phys, now)[k].hitpoints ==
                Hurt(m[k].hitpoints, if k in keys then Hits(m[id].gun.bullets, rects[k], probe, phys, now) else 0)
    {
      GunTurnFirst(m, id, keys, rects, probe, phys, now, k);
    }
  }

  /** For ids without repetitions, the gun-by-gun loop takes from each
      listed ship one hitpoint per (gun, bullet) pair of the guns in `todo`
      whose flight strikes it: the guns of later turns are those the ships
      held at the start, since a turn changes only the firing ship's gun. */
  lemma GunTurnsCounts(m: map<ShipId, Ship>, todo: seq<ShipId>, keys: seq<ShipId>,
                       rects: map<ShipId, Rect>, probe: Probe, phys: Physics, now: real)
    requires InMap(todo, m) && InMap(keys, m) && HasRects(keys, rects) && Distinct(todo) && Distinct(keys)
    ensures forall k | k in m ::
              GunTurns(m, todo, keys, rects, probe, phys, now)[k].hitpoints ==
                if k in keys then TakeDamage(m[k], PassHits(m, todo, rects[k], probe, phys, now)).hitpoints
                else m[k].hitpoints
  {
    forall k | k in m
      ensures GunTurns(m, todo, keys, rects, probe, phys, now)[k].hitpoints ==
                Hurt(m[k].hitpoints, if k in keys then PassHits(m, todo, rects[k], probe, phys, now) else 0)
    {
      GunTurnsAt(m, todo, keys, rects, probe, phys, now, k);
    }
  }

  /** `GunTurnsCounts` for one ship `k`. */
  lemma {:induction false} GunTurnsAt(m: map<ShipId, Ship>, todo: seq<ShipId>, keys: seq<ShipId>,
                                      rects: map<ShipId, Rect>, probe: Probe, phys: Physics, now: real, k: ShipId)
    requires InMap(todo, m) && InMap(keys, m) && HasRects(keys, rects) && Distinct(todo) && Distinct(keys)
    requires k in m
    ensures GunTurns(m, todo, keys, rects, probe, phys, now)[k].hitpoints ==
              Hurt(m[k].hitpoints, if k in keys then PassHits(m, todo, rects[k], probe, phys, now) else 0)
    decreases |todo|
  {
    if todo != [] {
      var id := todo[0];
      var tail := todo[1..];
      var m1 := GunTurn(m, id, keys, rects, probe, phys, now);
      assert Distinct(tail) && id !in tail;
      GunTurnsAt(m1, tail, keys, rects, probe, phys, now, k);
      GunTurnFirst(m, id, keys, rects, probe, phys, now, k);
      if k in keys {
        GunTurnLeavesLaterGuns(m, id, tail, keys, rects, probe, phys, now, rects[k]);
        HurtAdds(m[k].hitpoints, Hits(m[id].gun.bullets, rects[k], probe, phys, now),
                 PassHits(m, tail, rects[k], probe, phys, now), PassHits(m, todo, rects[k], probe, phys, now));
      }
    }
  }

  /** A gun's turn, for one ship `k`, on its hitpoints. */
  lemma GunTurnFirst(m: map<ShipId, Ship>, id: ShipId, keys: seq<ShipId>, rects: map<ShipId, Rect>,
                     probe: Probe, phys: Physics, now: real, k: ShipId)
    requires id in m && InMap(keys, m) && HasRects(keys, rects) && Distinct(keys) && k in m
    ensures GunTurn(m, id, keys, rects, probe, phys, now)[k].hitpoints ==
              Hurt(m[k].hitpoints, if k in keys then Hits(m[id].gun.bullets, rects[k], probe, phys, now) else 0)
  {
    VolleyAt(m, m[id].gun.bullets, keys, rects, probe, phys, now, k);
  }

  /** A gun's turn leaves the count of the later turns as it was. */
  lemma GunTurnLeavesLaterGuns(m: map<ShipId, Ship>, id: ShipId, tail: seq<ShipId>, keys: seq<ShipId>,
                               rects: map<ShipId, Rect>, probe: Probe, phys: Physics, now: real, target: Rect)
    requires id in m && InMap(tail, m) && InMap(keys, m) && HasRects(keys, rects) && id !in tail
    ensures InMap(tail, GunTurn(m, id, keys, rects, probe, phys, now))
    ensures PassHits(GunTurn(m, id, keys, rects, probe, phys, now), tail, target, probe, phys, now) ==
              PassHits(m, tail, target, probe, phys, now)
  {
    var m1 := GunTurn(m, id, keys, rects, probe, phys, now);
    PassHitsFrame(m, m1, tail, target, probe, phys, now);
  }

  /** The bullet pass over ships in dictionary order: each ship loses one
      hitpoint per (gun, bullet) pair, over every gun, whose flight strikes
      the rect the ship had when the pass began, as a single `takeDamage` of
      that count. */
  lemma BulletsPassCounts(m: map<ShipId, Ship>, order: seq<ShipId>, probe: Probe, phys: Physics, now: real)
    requires InMap(order, m) && Distinct(order)
    ensures forall k | k in m ::
              BulletsPass(m, order, probe, phys, now)[k].hitpoints ==
                if k in order then TakeDamage(m[k], PassHits(m, order, m[k].rect, probe, phys, now)).hitpoints
                else m[k].hitpoints
  {
    var rects := map k | k in m :: m[k].rect;
    GunTurnsCounts(m, order, order, rects, probe, phys, now);
  }

  // ---------------------------------------------------------------- barriers

  /** `n` barrier contacts: 2 damage and a half turn each. */
  function Knock(s: Ship, n: nat): Ship {
    TakeDamage(s, 2 * n).(direction := s.direction + 180.0 * n as real)
  }

  /** How many of the barriers overlap the rect. */
  function BarrierCount(r: Rect, barriers: seq<Rect>): nat
    decreases |barriers|
  {
    if barriers == [] then 0
    else (if Overlaps(barriers[0], r) then 1 else 0) + BarrierCount(r, barriers[1..])
  }

  /** One barrier against every ship: an overlapping ship takes 2 damage and
      its direction turns by 180 degrees. */
  function BarrierTurn(m: map<ShipId, Ship>, keys: seq<ShipId>, barrier: Rect): (r: map<ShipId, Ship>)
    requires InMap(keys, m)
    ensures r.Keys == m.Keys
    ensures forall k | k in m :: r[k] == m[k].(hitpoints := r[k].hitpoints, direction := r[k].direction)
    decreases |keys|
  {
    if keys == [] then m
    else
      var k := keys[0];
      var m1 := if Overlaps(barrier, m[k].rect) then m[k := Knock(m[k], 1)] else m;
      BarrierTurn(m1, keys[1..], barrier)
  }

  /** `handleBarriers`: barrier by barrier, ship by ship. */
  function BarriersPass(m: map<ShipId, Ship>, keys: seq<ShipId>, barriers: seq<Rect>): (r: map<ShipId, Ship>)
    requires InMap(keys, m)
    ensures r.Keys == m.Keys
    ensures forall k | k in m :: r[k] == m[k].(hitpoints := r[k].hitpoints, direction := r[k].direction)
    decreases |barriers|
  {
    if barriers == [] then m
    else BarriersPass(BarrierTurn(m, keys, barriers[0]), keys, barriers[1..])
  }

  lemma KnockAdds(s: Ship, n: nat)
    ensures Knock(Knock(s, 1), n) == Knock(s, n + 1)
  {
    TakeDamageAdds(s, 2, 2 * n);
  }

  lemma {:induction false} BarrierTurnEach(m: map<ShipId, Ship>, keys: seq<ShipId>, barrier: Rect)
    requires InMap(keys, m) && Distinct(keys)
    ensures forall k | k in m ::
              BarrierTurn(m, keys, barrier)[k] ==
                if k in keys && Overlaps(barrier, m[k].rect) then Knock(m[k], 1) else m[k]
    decreases |keys|
  {
    if keys != [] {
      var k0 := keys[0];
      var tail := keys[1..];
      var m1 := if Overlaps(barrier, m[k0].rect) then m[k0 := Knock(m[k0], 1)] else m;
      assert Distinct(tail);
      assert k0 !in tail;
      assert forall k :: k in keys <==> k == k0 || k in tail;
      BarrierTurnEach(m1, tail, barrier);
    }
  }

  /** For ids without repetitions, each listed ship ends up knocked once per
      barrier it overlaps: 2 damage (floored at 0) and a half turn per
      barrier. A ship overlapping no barrier, or not listed, is unchanged. */
  lemma {:induction false} BarriersPassCounts(m: map<ShipId, Ship>, keys: seq<ShipId>, barriers: seq<Rect>)
    requires InMap(keys, m) && Distinct(keys)
    ensures forall k | k in m ::
              BarriersPass(m, keys, barriers)[k] ==
                if k in keys then Knock(m[k], BarrierCount(m[k].rect, barriers)) else m[k]
    decreases |barriers|
  {
    if barriers != [] {
      var m1 := BarrierTurn(m, keys, barriers[0]);
      BarrierTurnEach(m, keys, barriers[0]);
      BarriersPassCounts(m1, keys, barriers[1..]);
      var r := BarriersPass(m1, keys, barriers[1..]);
      forall k | k in m
        ensures r[k] == if k in keys then Knock(m[k], BarrierCount(m[k].rect, barriers)) else m[k]
      {
        var n := BarrierCount(m[k].rect, barriers[1..]);
        if k !in keys {
          assert m1[k] == m[k];
        } else if Overlaps(barriers[0], m[k].rect) {
          assert m1[k] == Knock(m[k], 1);
          assert BarrierCount(m[k].rect, barriers) == n + 1;
          KnockAdds(m[k], n);
        } else {
          assert m1[k] == m[k];
          assert BarrierCount(m[k].rect, barriers) == n;
        }
      }
    }
  }

  /** Barrier contacts keep hitpoints in [0, 10] and leave speed, position
      and guns alone. */
  lemma BarriersPassKeepsSane(m: map<ShipId, Ship>, keys: seq<ShipId>, barriers: seq<Rect>)
    requires InMap(keys, m) && Distinct(keys) && AllSane(m)
    ensures AllSane(BarriersPass(m, keys, barriers))
    ensures forall k | k in m ::
              var s := BarriersPass(m, keys, barriers)[k];
              s.rect == m[k].rect && s.velocity == m[k].velocity && s.gun == m[k].gun && s.dead == m[k].dead
  {
    BarriersPassCounts(m, keys, barriers);
    forall k | k in m && k in keys
      ensures Sane(Knock(m[k], BarrierCount(m[k].rect, barriers)))
    {
      TakeDamageBounds(m[k], 2 * BarrierCount(m[k].rect, barriers));
    }
  }

  // ---------------------------------------------------------------- respawns

  /** The random spawn positions, one draw per ship, within [0, 400]. */
  ghost predicate DrawsInRange(draw: ShipId -> (int, int)) {
    forall k :: 0 <= draw(k).0 <= SpawnRange && 0 <= draw(k).1 <= SpawnRange
  }

  /** `handleRespawns`: the respawn check on every ship. */
  function Respawns(m: map<ShipId, Ship>, keys: seq<ShipId>, now: real, draw: ShipId -> (int, int)): (r: map<ShipId, Ship>)
    requires InMap(keys, m) && DrawsInRange(draw)
    ensures r.Keys == m.Keys
    ensures forall k | k in m :: r[k] == if k in keys then Spawn(m[k], now, draw(k)) else m[k]
    decreases |keys|
  {
    if keys == [] then m
    else
      var k := keys[0];
      var rest := Respawns(m[k := Spawn(m[k], now, draw(k))], keys[1..], now, draw);
      assert forall j :: j in keys <==> j == k || j in keys[1..];
      rest
  }
  /** A respawn restores full health at rest, so the respawns keep every
      ship within the game's ranges. */
  lemma RespawnsKeepSane(m: map<ShipId, Ship>, keys: seq<ShipId>, now: real, draw: ShipId -> (int, int))
    requires InMap(keys, m) && DrawsInRange(draw) && AllSane(m)
    ensures AllSane(Respawns(m, keys, now, draw))
  {
    var r := Respawns(m, keys, now, draw);
    forall k | k in r
      ensures Sane(r[k])
    {
      assert Sane(m[k]);
    }
  }

}
