# Gladiator combat engine in Dafny

A model of the combat core of a turn-based duel game: the `Fighter` state
machine (stat table, damage mitigation, healing, life steal, poison, the
archetype special attacks) and the round resolver with the battle loop
around it (poison ticks, one player action, the enemy's roll-table
reaction).

The model is functional. A fighter is an immutable record
(`Fighters.Fighter`), and every mutating member of the C++ `Fighter` class is a
pure function from the old record to the new one. `StealHP` returns both
fighters. `PerformSpecialAttack` returns only the new target, because the
attacker never changes. Passing records by value also removes the aliasing
question for `stealHP` and `performSpecialAttack`: the program always calls
them on two distinct fighters. These are the only two operations that take a
second fighter, so they are the only ones that can change a fighter other than
the one they act for.

- `fighter.dfy`, module `Fighters`: the record and the fighter operations.
  `Valid` is the state invariant: `0 <= currentHP <= maxHP`, and `atk`,
  `def` and `poisonDamage` are all non-negative. `SameBuild` says that name,
  archetype, `maxHP`, `atk` and `def` are unchanged. Every operation
  preserves `Valid` and keeps `SameBuild` with its input, so only
  construction ever writes those fields. `IsAlive` and `IsPoisoned` are pure
  queries, and so are the record's field selectors, which play the role of
  the getters.
- `dice.dfy`, module `Dice`: the draw ranges used by the resolver. The
  random generator is an oracle. A draw is a value the caller supplies, and
  the only thing known about it is that it lies in its inclusive range.
- `battle.dfy`, module `Battle`: `ActionPhase`, `ReactionPhase`,
  `ResolveTurn`, one loop iteration `Round`, and the loop itself. The loop
  appears twice: as the recursive `Fight` and as the `while` loop
  `RunBattle`, which is proved equal to it. A round's draws are a record
  `Draws(action, roll, reaction)`, and `DrawsFit` requires each draw that is
  read to lie in its range.

The player's menu choice is the closed enum `Action`. `Invalid` stands for
any unrecognised input. The one runtime failure is a special attack by a
Dragon, which the program throws as `logic_error`. Here it is
`Failure(TypeNotRecognized)`. The constructor's `default` branch cannot be
reached, because `FighterType` is a closed datatype.

All stat arithmetic uses non-negative operands, because `Valid` requires it.
On non-negative operands, Dafny's `/` agrees with C++'s truncating `/`.

Three facts about the C++ code that are easy to misread:

- A fighter who steals life keeps their own defending stance.
  `Fighter::stealHP` (Fighter.cpp:60-64) clears only the target's flag, and
  the steal branch of `resolveTurn` (main.cpp:128-133) leaves the actor's
  flag alone.
- The enemy's roll table (main.cpp:148-171) gives 7 attacks, 1 defend,
  1 steal and 1 heal out of 10 rolls, as `ReactionOdds` states. The
  "70/20/10" in the comment at main.cpp:147 does not match the code.
- The poison ticks happen in the battle loop (main.cpp:199-208), before
  `resolveTurn` is called, not inside it. `Round` models the loop body.

## Model

| member | source | states |
|---|---|---|
| Fighters.BaseStats | Fighter.cpp:11-35 | Every archetype's stats are positive and small (health at most 500, attack at most 30, defence at most 20). Only the Dragon has 500 health, and only the Mage has 30 attack. |
| Fighters.IsAlive | Fighter.cpp:116 | A living fighter has at least 1 health. A valid fighter is alive iff its health has not reached 0. |
| Fighters.IsPoisoned | Fighter.cpp:79-81 | A fighter is poisoned iff at least one tick remains. Zero or negative turns mean no poison. |
| Fighters.New | Fighter.cpp:5-41 | A new fighter has the archetype's table stats (Warrior 300/15/15, Mage 150/30/10, Rogue 200/20/20, Dragon 500/10/10), full health, no guard and no poison. It is valid and alive. |
| Fighters.TakeDamage | Fighter.cpp:43-50 | The reported damage is at least 1. Defence is subtracted only while defending, and a guarded hit never reports more than an unguarded one. The health lost is `min(damage, health)`. Health either drops or hits 0. The guard is always consumed, and nothing else changes. |
| Fighters.Heal | Fighter.cpp:52-54 | With a non-negative amount, health never falls and never passes the maximum. The gain is `min(amount, maxHP - HP)`. Only health changes. |
| Fighters.SetDefending | Fighter.cpp:56-58 | Sets the guard flag. Health, poison and build stay the same, and validity is unaffected. |
| Fighters.StealHP | Fighter.cpp:60-64 | The stealer gains `min(amount, room to max)`. The victim loses `min(amount, its health)`, with no mitigation. The victim's guard is broken and the stealer's guard is kept. Nothing else changes on either side. |
| Fighters.ApplyPoison | Fighter.cpp:67-70 | Afterwards the poison pair is exactly the arguments, and the fighter is poisoned iff turns > 0. Health, guard and build stay the same. |
| Fighters.TickPoison | Fighter.cpp:72-77 | With no turns left, the fighter is unchanged and 0 is reported. Otherwise the configured damage is reported, health drops by `min(damage, health)`, and exactly one turn is used. Nothing else changes. |
| Fighters.PerformSpecialAttack | Fighter.cpp:83-107 | Fails exactly for a Dragon. A Warrior's special is the target taking twice the attacker's attack. A Mage's special removes `min(MageDamage, health)` and clears the target's guard. A Rogue's special sets the target's poison to exactly (10,3). The target stays valid and never gains health. |
| Fighters.MageDamage | Fighter.cpp:91-94 | The Mage's blast is at least 1. Against an unguarded target it is 150% of the attack, truncated. Against a valid target it is never above that. Against a guarded target it is at least what an ordinary hit would do against full defence. |
| Fighters.GuardNeverHurts | Fighter.cpp:43-50 | For the same hit, a defending fighter takes no more damage and keeps at least as much health as an unguarded one. |
| Fighters.HarderHitsHurtMore | Fighter.cpp:43-50 | A larger incoming hit never deals less damage or leaves more health. |
| Fighters.PoisonOverwrites | Fighter.cpp:67-70 | Applying poison twice gives the same fighter as applying only the second poison. |
| Fighters.StealHealsLikeHeal | Fighter.cpp:52-64 | The stealer's side of a life steal is exactly a heal of the same amount. |
| Fighters.StealConservesHealth | Fighter.cpp:60-64 | When neither cap binds, a steal moves health between the fighters and the total stays the same. |
| Fighters.PoisonRunsDown | Fighter.cpp:72-77 | After `n` ticks within the remaining turns, the turns drop by `n`, the damage per turn is kept, and health is `max(0, HP - n*damage)`. |
| Fighters.SpentPoisonIsInert | Fighter.cpp:72-77 | Once no turns remain, any number of further ticks leaves the fighter unchanged. |
| Fighters.RoguePoisonTotal | Fighter.cpp:100-103 | A Rogue's poison costs its target `min(30, health)` over three ticks and is then spent. |
| Fighters.MageWorkedExample | Fighter.cpp:90-98 | A Mage with attack 30 against a defending target with defence 20 deals 35, and the target's guard is cleared. |
| Fighters.MageHalvesGuard | Fighter.cpp:90-98 | Against a defending target, the Mage's special hits at least as hard as an ordinary hit with 150% of its attack, because it meets only half the defence. |
| Dice.AttackRange | main.cpp:104-105 | For a non-negative attack, the attack range is non-empty, non-negative and contains the attack stat itself. |
| Dice.HeavyRange | main.cpp:121-122 | For a non-negative attack, the heavy range is non-empty and non-negative. It contains 150% of the attack, truncated, and reaches at least the attack stat. |
| Dice.StealRange | main.cpp:129-130 | For a non-negative attack, the steal range is non-empty, non-negative and never above half the attack. |
| Battle.ActionPhase | main.cpp:100-142 | Fails exactly on a Dragon's special. Each action has its effect: attack, defend, heal 20, heavy strike (which also drops the guard), steal, special (which drops the guard first), and a wasted turn. No action lowers the player's health, raises the enemy's, or touches the player's poison. |
| Battle.ReactionFor | main.cpp:149-171 | Each reaction in the roll table holds iff the roll is in its band: attack iff the roll is at most 7, defend iff it is 8, steal iff it is 9, and heal iff it is 10 or more. |
| Battle.ReactionPhase | main.cpp:148-171 | Rolls 1-7 make the enemy attack the player, 8 makes it defend, 9 makes it steal from the player, and 10 makes it heal 15. The reaction never lowers the enemy's health, never raises the player's, and never touches poison. |
| Battle.ResolveTurn | main.cpp:96-173 | The enemy reacts iff it is alive after the action. A dead enemy leaves the post-action state as it is. Enemy survival is decided by the action alone. The player's poison is untouched. A turn that downs the enemy never downs a living player. |
| Battle.Round | main.cpp:199-211 | The player's poison ticks, then the enemy's, and then the action is resolved even after a fatal tick. It fails only on a Dragon's special. An unpoisoned player stays unpoisoned. A living, unpoisoned player is never downed together with the enemy. |
| Battle.Fight | main.cpp:192-212 | Rounds run only while both fighters are alive. Validity and build are preserved across the whole battle. An unpoisoned player is never poisoned. Only a Dragon player can make the battle fail. |
| Battle.RunBattle | main.cpp:192-212 | The `while` loop computes the same result as `Fight`. It stops before the script ends only with a fighter down, or right after the failing special attack. |
| Battle.ReactionOdds | main.cpp:147-171 | Of the ten rolls, 7 attack and one each defends, steals and heals. |
| Battle.FightHasSurvivor | main.cpp:192-212 | A battle that starts with a living, unpoisoned player always ends with at least one fighter alive. |
| Battle.MainBattleHasSurvivor | main.cpp:183-212 | In the program's own battle, a fresh player against a fresh Dragon, there is always a survivor, and both fighters end with their table stats. |
| Battle.OpeningExchange | main.cpp:101-155 | A Warrior attacking a fresh Dragon with a draw of 15, answered by an attack with a draw of 10, leaves 290 and 485 health. |
| Battle.FatalTickStillActs | main.cpp:199-211 | When a poison tick kills the enemy, the player's heal still happens and the dead enemy does not react. |

## Left out

- `printStatus`, `printLine` and every console message: these are output formatting only. The poison amounts the loop prints are not part of a round's result.
- `getPlayerRole` and `getPlayerAction`: input loops over standard input. The role is a `FighterType` argument and the action is the closed `Action` enum.
- `randomInt` internals (the Mersenne Twister engine and its seeding): a draw is a caller-supplied value constrained only by its range.
- Battle.Fight: the program's loop reads input until someone dies. The model plays a finite script of turns, and `RunBattle` reports how many rounds were played.
- Battle.DrawsFit: it constrains the reaction roll to 1..10 even on a turn where the enemy is dead and the roll is never drawn. Such an unread value does not affect the result.
- Fighters: C++ `int` is 32 bits wide, but the model uses unbounded integers. Overflow cannot happen with the table stats and the program's constants, so wrap-around is not modelled.
- Fighters.Heal, Fighters.StealHP, Fighters.ApplyPoison: they require a non-negative amount or poison damage. The C++ members accept any `int`, but every caller passes a non-negative value, and the health bounds depend on it.
- Fighters.StealHP: stealing from oneself is not modelled, because the records are passed by value. The program never does it.
- The winner banner at the end of `main` is output only. `MainBattleHasSurvivor` states the fact it depends on.
