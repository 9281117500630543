/**
 * An Otyugh: a named monster living in a cave, whose health goes
 * 100 -> 50 -> 0 as arrows hit it.
 */
module Otyughs {
  import opened Wrappers
  import Text

  const FullHealth: int := 100
  const WoundedHealth: int := 50
  const HealthError: string := "Health must be between 0 and 100!"

  datatype Otyugh = Otyugh(name: string, health: int)

  predicate ValidHealth(h: int)
  {
    0 <= h <= FullHealth
  }

  /**
   * The no-argument constructor: the name is the current value of the
   * shared Otyugh counter, and the health is full.
   */
  function Spawn(counter: nat): (o: Otyugh)
    ensures ValidHealth(o.health) && o.health == FullHealth && !IsHit(o)
    ensures o.name == Text.NatToString(counter)
  {
    Otyugh(Text.NatToString(counter), FullHealth)
  }

  /** The copy constructor: same name, same health. */
  function Copy(o: Otyugh): (c: Otyugh)
    ensures c.name == o.name && c.health == o.health
  {
    Otyugh(o.name, o.health)
  }

  /** The (name, health) constructor, which rejects a health outside 0..100. */
  function Make(name: string, health: int): (r: Result<Otyugh>)
    ensures r.Ok? <==> ValidHealth(health)
    ensures r.Ok? ==> r.value.name == name && r.value.health == health
    ensures r.Err? ==> r.error == IllegalArgument(HealthError)
  {
    if health < 0 || health > 100 then Err(IllegalArgument(HealthError))
    else Ok(Otyugh(name, health))
  }

  /** setHealth: the same range check, and only the health changes. */
  function SetHealth(o: Otyugh, health: int): (r: Result<Otyugh>)
    ensures r.Ok? <==> ValidHealth(health)
    ensures r.Ok? ==> r.value.name == o.name && r.value.health == health
    ensures r.Err? ==> r.error == IllegalArgument(HealthError)
  {
    if health < 0 || health > 100 then Err(IllegalArgument(HealthError))
    else Ok(o.(health := health))
  }

  /**
   * The health an Otyugh would have after an arrow hit (the Otyugh itself
   * is left unchanged; the caller stores the value): half health from full
   * health, zero from anything else.
   */
  function GotHitByArrow(o: Otyugh): (h: int)
    ensures ValidHealth(h) && h <= WoundedHealth
    ensures o.health == FullHealth <==> h == WoundedHealth
    ensures ValidHealth(o.health) && o.health > 0 ==> h < o.health
    ensures o.health != FullHealth ==> h == 0
  {
    if o.health == 100 then 50 else 0
  }

  /** An Otyugh has been hit once exactly when its health is 50. */
  predicate IsHit(o: Otyugh)
  {
    o.health == WoundedHealth
  }

  /** The state change the engine performs on a hit: store the reduced health. */
  function Hit(o: Otyugh): (r: Otyugh)
    ensures r.name == o.name
    ensures SetHealth(o, GotHitByArrow(o)) == Ok(r)
  {
    o.(health := GotHitByArrow(o))
  }

  /**
   * The health state machine: a freshly spawned Otyugh is wounded (and
   * marked as hit) by the first arrow and killed by the second.
   */
  lemma FreshOtyughDiesOnSecondHit(counter: nat)
    ensures !IsHit(Spawn(counter))
    ensures IsHit(Hit(Spawn(counter))) && Hit(Spawn(counter)).health > 0
    ensures Hit(Hit(Spawn(counter))).health == 0
  {
  }

  /** Hits never raise the health, and any Otyugh is dead after at most two hits. */
  lemma HitsOnlyLowerHealth(o: Otyugh)
    requires ValidHealth(o.health)
    ensures Hit(o).health <= o.health
    ensures Hit(Hit(o)).health == 0
  {
  }
}
