/**
  Enemies of `src/enemy.rs`: health as a 32-bit unsigned integer,
  saturating damage, and the per-frame sweep that despawns dead enemies
  and pays every castle one coin per death.
 */
module Enemy {

  const U32_MAX: int := 0xFFFF_FFFF

  newtype u32 = x: int | 0 <= x <= U32_MAX

  /** The `Enemy` component. */
  datatype Enemy = Enemy(health: u32)

  /** `Enemy::new`: an enemy with exactly the health it is given. */
  function NewEnemy(health: u32): (r: Enemy)
    ensures r.health == health
  {
    Enemy(health)
  }

  /**
    `Enemy::take_damage`: subtraction clamped at zero. Damage above the
    health leaves 0, otherwise the difference; health never grows and zero
    damage changes nothing.
   */
  function TakeDamage(e: Enemy, damage: u32): (r: Enemy)
    ensures damage > e.health ==> r.health == 0
    ensures damage <= e.health ==> r.health as int == e.health as int - damage as int
    ensures r.health <= e.health
    ensures damage == 0 ==> r == e
  {
    if damage > e.health then e.(health := 0) else e.(health := e.health - damage)
  }

  /** Applies each damage in turn. */
  function TakeAll(e: Enemy, damages: seq<u32>): Enemy {
    if |damages| == 0 then e else TakeDamage(TakeAll(e, damages[..|damages| - 1]), damages[|damages| - 1])
  }

  function Sum(damages: seq<u32>): int {
    if |damages| == 0 then 0 else Sum(damages[..|damages| - 1]) + damages[|damages| - 1] as int
  }

  /**
    Hits add up: a fresh enemy of health `h` hit by `damages` has `h` minus
    their total left, or 0 once the total reaches `h`.
   */
  lemma {:induction false} DamageAccumulates(h: u32, damages: seq<u32>)
    ensures var total := Sum(damages);
            TakeAll(NewEnemy(h), damages).health as int == if total >= h as int then 0 else h as int - total
  {
    if |damages| > 0 {
      DamageAccumulates(h, damages[..|damages| - 1]);
      var init := damages[..|damages| - 1];
      assert Sum(init) >= 0 by { SumNonNegative(init); }
    }
  }

  lemma {:induction false} SumNonNegative(damages: seq<u32>)
    ensures Sum(damages) >= 0
  {
    if |damages| > 0 {
      SumNonNegative(damages[..|damages| - 1]);
    }
  }

  /** An enemy entity as `tick_enemy` queries it. */
  datatype Spawned = Spawned(entity: nat, enemy: Enemy)

  /** Healths of the queried enemies, in query order. */
  function Healths(enemies: seq<Spawned>): (hs: seq<u32>)
    ensures |hs| == |enemies| && forall k | 0 <= k < |enemies| :: hs[k] == enemies[k].enemy.health
  {
    seq(|enemies|, k requires 0 <= k < |enemies| => enemies[k].enemy.health)
  }

  /** The enemies that stay, the entities whose despawn is queued, and every castle's money. */
  datatype Swept = Swept(survivors: seq<Spawned>, despawned: seq<nat>, money: seq<nat>)

  /**
    `tick_enemy`: each enemy with zero health is despawned and pays one
    coin to every castle; the others are kept, in order. Every enemy ends
    up on exactly one side, and every castle gains one coin per despawn.
   */
  function TickEnemy(enemies: seq<Spawned>, money: seq<nat>): (r: Swept)
    ensures |r.survivors| + |r.despawned| == |enemies|
    ensures |r.money| == |money|
    ensures forall c | 0 <= c < |money| :: r.money[c] == money[c] + |r.despawned|
    decreases |enemies|
  {
    if |enemies| == 0 then Swept([], [], money)
    else
      var before := TickEnemy(enemies[..|enemies| - 1], money);
      var last := enemies[|enemies| - 1];
      if last.enemy.health == 0 then
        Swept(before.survivors, before.despawned + [last.entity], PayEach(before.money))
      else
        Swept(before.survivors + [last], before.despawned, before.money)
  }

  /**
    The enemies kept are exactly those with non-zero health; every
    zero-health enemy is despawned.
   */
  lemma {:induction false} TickEnemyMembers(enemies: seq<Spawned>, money: seq<nat>)
    ensures var r := TickEnemy(enemies, money);
            && (forall x | x in r.survivors :: x in enemies && x.enemy.health != 0)
            && (forall x | x in enemies :: x.enemy.health != 0 ==> x in r.survivors)
            && (forall x | x in enemies :: x.enemy.health == 0 ==> x.entity in r.despawned)
    decreases |enemies|
  {
    if |enemies| > 0 {
      var init := enemies[..|enemies| - 1];
      TickEnemyMembers(init, money);
      assert enemies == init + [enemies[|enemies| - 1]];
    }
  }

  /** The number of despawns, and so each castle's gain, is the number of zero healths. */
  lemma {:induction false} TickEnemyPaysPerDeath(enemies: seq<Spawned>, money: seq<nat>)
    ensures |TickEnemy(enemies, money).despawned| == multiset(Healths(enemies))[0]
    decreases |enemies|
  {
    if |enemies| > 0 {
      var init := enemies[..|enemies| - 1];
      var last := enemies[|enemies| - 1];
      TickEnemyPaysPerDeath(init, money);
      assert Healths(enemies) == Healths(init) + [last.enemy.health];
      assert multiset(Healths(enemies)) == multiset(Healths(init)) + multiset{last.enemy.health};
    }
  }

  /** One coin more for every castle. */
  function PayEach(money: seq<nat>): (r: seq<nat>)
    ensures |r| == |money| && forall c | 0 <= c < |money| :: r[c] == money[c] + 1
  {
    seq(|money|, c requires 0 <= c < |money| => money[c] + 1)
  }
}
