/**
 The `Fighter` state machine of the duel game: an immutable record plus pure
 update functions. Every mutating member of the C++ `Fighter` class becomes a
 function from the old record (and its arguments) to the new record(s).
 */
module Fighters {

  /** The closed set of archetypes. */
  datatype FighterType = Warrior | Mage | Rogue | Dragon

  /** Base stats an archetype fixes at construction. */
  datatype Stats = Stats(maxHP: int, atk: int, def: int)

  /** The record layout of a fighter. Poison is the pair
      (`poisonDamage`, `poisonTurnsLeft`); it is active while turns remain. */
  datatype Fighter = Fighter(
    name: string,
    kind: FighterType,
    currentHP: int,
    maxHP: int,
    atk: int,
    def: int,
    defending: bool,
    poisonDamage: int,
    poisonTurnsLeft: int)

  /** The only failure of the core: a special attack for an archetype that has none. */
  datatype Error = TypeNotRecognized

  datatype Result<T> = Success(value: T) | Failure(error: Error)

  /** A fighter after an operation that reports an amount of damage. */
  datatype Damaged = Damaged(after: Fighter, amount: int)

  /** The two fighters after an operation that touches both. */
  datatype Pair = Pair(self: Fighter, other: Fighter)

  function Min(a: int, b: int): int { if a <= b then a else b }

  function Max(a: int, b: int): int { if a >= b then a else b }

  /** The state invariant every fighter keeps: health within bounds and
      non-negative stats and poison damage (so integer division on stats
      truncates the same way it does on non-negative machine integers). */
  predicate Valid(f: Fighter) {
    && 0 <= f.currentHP <= f.maxHP
    && 0 <= f.atk
    && 0 <= f.def
    && 0 <= f.poisonDamage
  }

  /** The parts of a fighter only construction writes. */
  predicate SameBuild(f: Fighter, g: Fighter) {
    && g.name == f.name
    && g.kind == f.kind
    && g.maxHP == f.maxHP
    && g.atk == f.atk
    && g.def == f.def
  }

  /** A fighter is alive while it has any health left; for a valid fighter
      that means exactly that health has not reached the floor of 0. */
  predicate IsAlive(f: Fighter)
    ensures IsAlive(f) ==> f.currentHP >= 1
    ensures Valid(f) ==> (IsAlive(f) <==> f.currentHP != 0)
  {
    f.currentHP > 0
  }

  /** Poisoned while at least one tick remains; zero or negative turns mean
      no poison, whatever the damage per turn. */
  predicate IsPoisoned(f: Fighter)
    ensures IsPoisoned(f) ==> f.poisonTurnsLeft >= 1
    ensures !IsPoisoned(f) ==> f.poisonTurnsLeft <= 0
  {
    f.poisonTurnsLeft > 0
  }

  /** The archetype stat table. Every stat is positive and small, so no
      arithmetic of the game comes near the limits of a 32-bit integer. */
  function BaseStats(kind: FighterType): (s: Stats)
    ensures 0 < s.maxHP <= 500 && 0 < s.atk <= 30 && 0 < s.def <= 20
    ensures kind == Dragon <==> s.maxHP == 500
    ensures kind == Mage <==> s.atk == 30
  {
    match kind
    case Warrior => Stats(300, 15, 15)
    case Mage => Stats(150, 30, 10)
    case Rogue => Stats(200, 20, 20)
    case Dragon => Stats(500, 10, 10)
  }

  /** Construction: full health, not defending, not poisoned. */
  function New(name: string, kind: FighterType): (f: Fighter)
    ensures Valid(f) && IsAlive(f)
    ensures f.name == name && f.kind == kind
    ensures kind == Warrior ==> f.maxHP == 300 && f.atk == 15 && f.def == 15
    ensures kind == Mage ==> f.maxHP == 150 && f.atk == 30 && f.def == 10
    ensures kind == Rogue ==> f.maxHP == 200 && f.atk == 20 && f.def == 20
    ensures kind == Dragon ==> f.maxHP == 500 && f.atk == 10 && f.def == 10
    ensures f.currentHP == f.maxHP
    ensures !f.defending
    ensures f.poisonDamage == 0 && f.poisonTurnsLeft == 0 && !IsPoisoned(f)
  {
    var s := BaseStats(kind);
    Fighter(name, kind, s.maxHP, s.maxHP, s.atk, s.def, false, 0, 0)
  }

  /** A hit of `incoming` raw damage: defence is subtracted only while
      defending, at least 1 point always lands, health stops at 0, and the
      stance is consumed. */
  function TakeDamage(f: Fighter, incoming: int): (r: Damaged)
    requires Valid(f)
    ensures r.amount >= 1
    ensures !f.defending ==> r.amount == Max(1, incoming)
    ensures f.defending ==> r.amount == Max(1, incoming - f.def) && r.amount <= Max(1, incoming)
    ensures r.after.currentHP == f.currentHP - Min(r.amount, f.currentHP)
    ensures r.after.currentHP < f.currentHP || r.after.currentHP == 0
    ensures !r.after.defending
    ensures r.after == f.(currentHP := r.after.currentHP, defending := false)
    ensures Valid(r.after) && SameBuild(f, r.after)
  {
    var effective := if f.defending then incoming - f.def else incoming;
    var actual := Max(1, effective);
    Damaged(f.(currentHP := Max(0, f.currentHP - actual), defending := false), actual)
  }

  /** Healing never passes the maximum and never lowers health. */
  function Heal(f: Fighter, amount: int): (g: Fighter)
    requires Valid(f) && amount >= 0
    ensures f.currentHP <= g.currentHP <= g.maxHP
    ensures g.currentHP - f.currentHP == Min(amount, f.maxHP - f.currentHP)
    ensures g == f.(currentHP := g.currentHP)
    ensures Valid(g) && SameBuild(f, g)
  {
    f.(currentHP := Min(f.maxHP, f.currentHP + amount))
  }

  /** Raising or dropping the guard touches nothing else. */
  function SetDefending(f: Fighter, d: bool): (g: Fighter)
    ensures g.defending == d
    ensures g.currentHP == f.currentHP
    ensures g.poisonDamage == f.poisonDamage && g.poisonTurnsLeft == f.poisonTurnsLeft
    ensures SameBuild(f, g)
    ensures Valid(g) <==> Valid(f)
  {
    f.(defending := d)
  }

  /** Life steal: `self` gains up to `amount` (capped at its maximum),
      `other` loses up to `amount` with no defence mitigation, and `other`'s
      stance is broken while `self`'s stance is kept. */
  function StealHP(self: Fighter, other: Fighter, amount: int): (r: Pair)
    requires Valid(self) && Valid(other) && amount >= 0
    ensures r.self.currentHP - self.currentHP == Min(amount, self.maxHP - self.currentHP)
    ensures other.currentHP - r.other.currentHP == Min(amount, other.currentHP)
    ensures r.self.defending == self.defending
    ensures !r.other.defending
    ensures r.self == self.(currentHP := r.self.currentHP)
    ensures r.other == other.(currentHP := r.other.currentHP, defending := false)
    ensures Valid(r.self) && SameBuild(self, r.self)
    ensures Valid(r.other) && SameBuild(other, r.other)
  {
    var s := self.(currentHP := Min(self.maxHP, self.currentHP + amount));
    var o := SetDefending(other.(currentHP := Max(0, other.currentHP - amount)), false);
    Pair(s, o)
  }

  /** Poison is replaced, never stacked. */
  function ApplyPoison(f: Fighter, damagePerTurn: int, turns: int): (g: Fighter)
    requires Valid(f) && damagePerTurn >= 0
    ensures g.poisonDamage == damagePerTurn && g.poisonTurnsLeft == turns
    ensures IsPoisoned(g) <==> turns > 0
    ensures g.currentHP == f.currentHP && g.defending == f.defending
    ensures Valid(g) && SameBuild(f, g)
  {
    f.(poisonDamage := damagePerTurn, poisonTurnsLeft := turns)
  }

  /** One poison tick. Without turns left nothing happens and 0 is reported;
      otherwise the configured damage is reported (not the health actually
      lost), health drops by it with a floor of 0, and one turn is used up. */
  function TickPoison(f: Fighter): (r: Damaged)
    requires Valid(f)
    ensures !IsPoisoned(f) ==> r == Damaged(f, 0)
    ensures IsPoisoned(f) ==> r.amount == f.poisonDamage
    ensures IsPoisoned(f) ==> r.after.poisonTurnsLeft == f.poisonTurnsLeft - 1
    ensures IsPoisoned(f) ==> r.after.currentHP == f.currentHP - Min(f.poisonDamage, f.currentHP)
    ensures r.after == f.(currentHP := r.after.currentHP, poisonTurnsLeft := r.after.poisonTurnsLeft)
    ensures r.after.currentHP <= f.currentHP
    ensures Valid(r.after) && SameBuild(f, r.after)
  {
    if f.poisonTurnsLeft <= 0 then Damaged(f, 0)
    else
      var g := f.(currentHP := Max(0, f.currentHP - f.poisonDamage),
                  poisonTurnsLeft := f.poisonTurnsLeft - 1);
      Damaged(g, f.poisonDamage)
  }

  /** The mage's blast: half again its attack, reduced by half the target's
      defence only when the target is defending, never below 1. */
  function MageDamage(attacker: Fighter, target: Fighter): (d: int)
    ensures d >= 1
    ensures !target.defending ==> d == Max(1, attacker.atk * 3 / 2)
    ensures Valid(target) ==> d <= Max(1, attacker.atk * 3 / 2)
    ensures Valid(target) && target.defending ==> d >= Max(1, attacker.atk * 3 / 2 - target.def)
  {
    var damage := attacker.atk * 3 / 2;
    var reducedDef := target.def / 2;
    Max(1, if target.defending then damage - reducedDef else damage)
  }

  /** The archetype's special attack on `target`; the attacker itself is
      not changed. The Dragon has none and fails. */
  function PerformSpecialAttack(attacker: Fighter, target: Fighter): (r: Result<Fighter>)
    requires Valid(attacker) && Valid(target)
    ensures r.Failure? <==> attacker.kind == Dragon
    ensures attacker.kind == Warrior ==> r == Success(TakeDamage(target, 2 * attacker.atk).after)
    ensures attacker.kind == Mage ==>
              && r.Success?
              && r.value == target.(currentHP := r.value.currentHP, defending := false)
              && target.currentHP - r.value.currentHP == Min(MageDamage(attacker, target), target.currentHP)
    ensures attacker.kind == Rogue ==> r == Success(target.(poisonDamage := 10, poisonTurnsLeft := 3))
    ensures r.Success? ==> Valid(r.value) && SameBuild(target, r.value)
    ensures r.Success? ==> r.value.currentHP <= target.currentHP
  {
    match attacker.kind
    case Warrior => Success(TakeDamage(target, attacker.atk * 2).after)
    case Mage =>
      var actual := MageDamage(attacker, target);
      Success(target.(currentHP := Max(0, target.currentHP - actual), defending := false))
    case Rogue => Success(ApplyPoison(target, 10, 3))
    case Dragon => Failure(TypeNotRecognized)
  }

  /** `n` successive poison ticks. */
  function TickN(f: Fighter, n: nat): (g: Fighter)
    requires Valid(f)
    ensures Valid(g) && SameBuild(f, g)
    decreases n
  {
    if n == 0 then f else TickN(TickPoison(f).after, n - 1)
  }

  // ---------------------------------------------------------------------
  // Lemmas

  /** A defending fighter never takes more from a hit than an unguarded one. */
  lemma GuardNeverHurts(f: Fighter, incoming: int)
    requires Valid(f)
    ensures TakeDamage(f.(defending := true), incoming).amount
            <= TakeDamage(f.(defending := false), incoming).amount
    ensures TakeDamage(f.(defending := true), incoming).after.currentHP
            >= TakeDamage(f.(defending := false), incoming).after.currentHP
  {
  }

  /** A harder hit never leaves more health. */
  lemma HarderHitsHurtMore(f: Fighter, a: int, b: int)
    requires Valid(f) && a <= b
    ensures TakeDamage(f, a).amount <= TakeDamage(f, b).amount
    ensures TakeDamage(f, b).after.currentHP <= TakeDamage(f, a).after.currentHP
  {
  }

  /** Applying poison twice leaves exactly the second application. */
  lemma PoisonOverwrites(f: Fighter, d1: int, t1: int, d2: int, t2: int)
    requires Valid(f) && d1 >= 0 && d2 >= 0
    ensures ApplyPoison(ApplyPoison(f, d1, t1), d2, t2) == ApplyPoison(f, d2, t2)
  {
  }

  /** The self half of a life steal is exactly a heal of the same amount. */
  lemma StealHealsLikeHeal(self: Fighter, other: Fighter, amount: int)
    requires Valid(self) && Valid(other) && amount >= 0
    ensures StealHP(self, other, amount).self == Heal(self, amount)
  {
  }

  /** When neither cap binds, a life steal moves health without creating or
      destroying any. */
  lemma StealConservesHealth(self: Fighter, other: Fighter, amount: int)
    requires Valid(self) && Valid(other) && amount >= 0
    requires self.currentHP + amount <= self.maxHP && amount <= other.currentHP
    ensures var r := StealHP(self, other, amount);
            r.self.currentHP + r.other.currentHP == self.currentHP + other.currentHP
  {
  }

  /** While turns remain, each tick costs exactly one turn and the health
      loss accumulates, floored at 0. */
  lemma {:induction false} PoisonRunsDown(f: Fighter, n: nat)
    requires Valid(f) && n <= f.poisonTurnsLeft
    ensures TickN(f, n).poisonTurnsLeft == f.poisonTurnsLeft - n
    ensures TickN(f, n).poisonDamage == f.poisonDamage
    ensures TickN(f, n).currentHP == Max(0, f.currentHP - n * f.poisonDamage)
    ensures TickN(f, n).defending == f.defending
    decreases n
  {
    if n > 0 {
      var g := TickPoison(f).after;
      PoisonRunsDown(g, n - 1);
      var d := f.poisonDamage;
      assert (n - 1) * d + d == n * d;
      assert (n - 1) * d >= 0;
    }
  }

  /** Once no turns remain, further ticks change nothing. */
  lemma {:induction false} SpentPoisonIsInert(f: Fighter, n: nat)
    requires Valid(f) && !IsPoisoned(f)
    ensures TickN(f, n) == f
    decreases n
  {
    if n > 0 {
      SpentPoisonIsInert(TickPoison(f).after, n - 1);
    }
  }

  /** The rogue's poison costs its target 30 health over three ticks
      (floored at 0) and is then spent. */
  lemma RoguePoisonTotal(rogue: Fighter, target: Fighter)
    requires Valid(rogue) && Valid(target) && rogue.kind == Rogue
    ensures var t := PerformSpecialAttack(rogue, target).value;
            && TickN(t, 3).currentHP == Max(0, target.currentHP - 30)
            && !IsPoisoned(TickN(t, 3))
  {
    var t := PerformSpecialAttack(rogue, target).value;
    PoisonRunsDown(t, 3);
  }

  /** Worked example: a mage with attack 30 against a defending target of
      defence 20 deals 45 - 10 = 35. */
  lemma MageWorkedExample(mage: Fighter, target: Fighter)
    requires Valid(mage) && Valid(target) && mage.kind == Mage
    requires mage.atk == 30 && target.def == 20 && target.defending && target.currentHP >= 35
    ensures PerformSpecialAttack(mage, target).value.currentHP == target.currentHP - 35
    ensures !PerformSpecialAttack(mage, target).value.defending
  {
  }

  /** Against a guarded target the mage's blast, which only meets half the
      defence, lands at least as hard as an ordinary hit of the same raw
      damage. */
  lemma MageHalvesGuard(mage: Fighter, target: Fighter)
    requires Valid(mage) && Valid(target) && mage.kind == Mage && target.defending
    ensures PerformSpecialAttack(mage, target).value.currentHP
            <= TakeDamage(target, mage.atk * 3 / 2).after.currentHP
  {
  }
}
