/**
 One round of the duel and the battle loop around it. A round ticks both
 fighters' poison (player first), resolves exactly one player action, and
 then lets the enemy react from a fixed roll table if it is still alive.
 */
module Battle {
  import opened Fighters
  import opened Dice

  /** The player's menu choices; anything unrecognised is `Invalid`. */
  datatype Action = Attack | Defend | HealSelf | Heavy | Steal | Special | Invalid

  /** What the enemy does for a reaction roll. */
  datatype Reaction = CounterAttack | Brace | Drain | Recover

  /** The values the generator returns during one turn, in call order: the
      draw of the player's action (read only by attack, heavy and steal), the
      enemy's reaction roll, and the draw of the enemy's reaction (read only
      by its attack and steal). */
  datatype Draws = Draws(action: int, roll: int, reaction: int)

  /** The input of one round: the chosen action and the draws it consumes. */
  datatype Turn = Turn(action: Action, draws: Draws)

  /** The two duellists. */
  datatype Duel = Duel(player: Fighter, enemy: Fighter)

  predicate ValidDuel(d: Duel) { Valid(d.player) && Valid(d.enemy) }

  predicate SameBuilds(d: Duel, d': Duel) {
    SameBuild(d.player, d'.player) && SameBuild(d.enemy, d'.enemy)
  }

  /** The roll table: 1-7 attack, 8 defend, 9 steal, 10 heal. */
  function ReactionFor(roll: int): (r: Reaction)
    ensures r == CounterAttack <==> roll <= 7
    ensures r == Brace <==> roll == 8
    ensures r == Drain <==> roll == 9
    ensures r == Recover <==> roll >= 10
  {
    if roll <= 7 then CounterAttack
    else if roll <= 8 then Brace
    else if roll <= 9 then Drain
    else Recover
  }

  /** The action draw lies in the range its action draws from. */
  predicate ActionDrawFits(a: Action, atk: int, x: int)
    requires atk >= 0
  {
    match a
    case Attack => AttackRange(atk).Contains(x)
    case Heavy => HeavyRange(atk).Contains(x)
    case Steal => StealRange(atk).Contains(x)
    case _ => true
  }

  /** The reaction draw lies in the range its reaction draws from. */
  predicate ReactionDrawFits(roll: int, atk: int, x: int)
    requires atk >= 0
  {
    match ReactionFor(roll)
    case CounterAttack => AttackRange(atk).Contains(x)
    case Drain => StealRange(atk).Contains(x)
    case _ => true
  }

  /** Every draw of a turn honours the generator's range promise. */
  predicate DrawsFit(playerAtk: int, enemyAtk: int, a: Action, d: Draws)
    requires playerAtk >= 0 && enemyAtk >= 0
  {
    && ActionDrawFits(a, playerAtk, d.action)
    && ReactionRoll.Contains(d.roll)
    && ReactionDrawFits(d.roll, enemyAtk, d.reaction)
  }

  predicate ScriptFits(playerAtk: int, enemyAtk: int, script: seq<Turn>)
    requires playerAtk >= 0 && enemyAtk >= 0
  {
    forall i :: 0 <= i < |script| ==> DrawsFit(playerAtk, enemyAtk, script[i].action, script[i].draws)
  }

  /** The player's single action. Only a special attack by a dragon fails.
      No action lowers the player's health or raises the enemy's, and none
      touches the player's poison. */
  function ActionPhase(p: Fighter, e: Fighter, a: Action, x: int): (r: Result<Duel>)
    requires Valid(p) && Valid(e) && ActionDrawFits(a, p.atk, x)
    ensures r.Failure? <==> a == Special && p.kind == Dragon
    ensures a == Attack ==> r == Success(Duel(p, TakeDamage(e, x).after))
    ensures a == Defend ==> r == Success(Duel(p.(defending := true), e))
    ensures a == HealSelf ==> r == Success(Duel(Heal(p, 20), e))
    ensures a == Heavy ==> r == Success(Duel(p.(defending := false), TakeDamage(e, x).after))
    ensures a == Steal ==> r == Success(Duel(StealHP(p, e, x).self, StealHP(p, e, x).other))
    ensures a == Special && p.kind != Dragon ==>
              r == Success(Duel(p.(defending := false), PerformSpecialAttack(p, e).value))
    ensures a == Invalid ==> r == Success(Duel(p, e))
    ensures r.Success? ==> ValidDuel(r.value) && SameBuilds(Duel(p, e), r.value)
    ensures r.Success? ==> r.value.player.currentHP >= p.currentHP
    ensures r.Success? ==> r.value.enemy.currentHP <= e.currentHP
    ensures r.Success? ==> r.value.player.poisonDamage == p.poisonDamage
    ensures r.Success? ==> r.value.player.poisonTurnsLeft == p.poisonTurnsLeft
  {
    match a
    case Attack => Success(Duel(p, TakeDamage(e, x).after))
    case Defend => Success(Duel(SetDefending(p, true), e))
    case HealSelf => Success(Duel(Heal(p, 20), e))
    case Heavy =>
      var e' := TakeDamage(e, x).after;
      Success(Duel(SetDefending(p, false), e'))
    case Steal =>
      var s := StealHP(p, e, x);
      Success(Duel(s.self, s.other))
    case Special =>
      var p' := SetDefending(p, false);
      (match PerformSpecialAttack(p', e)
       case Success(e') => Success(Duel(p', e'))
       case Failure(err) => Failure(err))
    case Invalid => Success(Duel(p, e))
  }

  /** The enemy's reaction to a roll. It never lowers the enemy's health,
      never raises the player's, and touches no poison. */
  function ReactionPhase(p: Fighter, e: Fighter, roll: int, x: int): (r: Duel)
    requires Valid(p) && Valid(e)
    requires ReactionRoll.Contains(roll) && ReactionDrawFits(roll, e.atk, x)
    ensures roll <= 7 ==> r == Duel(TakeDamage(p, x).after, e)
    ensures roll == 8 ==> r == Duel(p, e.(defending := true))
    ensures roll == 9 ==> r == Duel(StealHP(e, p, x).other, StealHP(e, p, x).self)
    ensures roll == 10 ==> r == Duel(p, Heal(e, 15))
    ensures ValidDuel(r) && SameBuilds(Duel(p, e), r)
    ensures r.enemy.currentHP >= e.currentHP && r.player.currentHP <= p.currentHP
    ensures r.player.poisonDamage == p.poisonDamage && r.player.poisonTurnsLeft == p.poisonTurnsLeft
    ensures r.enemy.poisonDamage == e.poisonDamage && r.enemy.poisonTurnsLeft == e.poisonTurnsLeft
  {
    match ReactionFor(roll)
    case CounterAttack => Duel(TakeDamage(p, x).after, e)
    case Brace => Duel(p, SetDefending(e, true))
    case Drain =>
      var s := StealHP(e, p, x);
      Duel(s.other, s.self)
    case Recover => Duel(p, Heal(e, 15))
  }

  /** One call of the turn resolver: the action, then the reaction exactly
      when the enemy survived the action. */
  function ResolveTurn(p: Fighter, e: Fighter, a: Action, d: Draws): (r: Result<Duel>)
    requires Valid(p) && Valid(e) && DrawsFit(p.atk, e.atk, a, d)
    ensures r.Failure? <==> a == Special && p.kind == Dragon
    ensures r.Success? ==>
              var mid := ActionPhase(p, e, a, d.action).value;
              && (IsAlive(mid.enemy) ==> r.value == ReactionPhase(mid.player, mid.enemy, d.roll, d.reaction))
              && (!IsAlive(mid.enemy) ==> r.value == mid)
              && (IsAlive(r.value.enemy) <==> IsAlive(mid.enemy))
    ensures r.Success? ==> ValidDuel(r.value) && SameBuilds(Duel(p, e), r.value)
    ensures r.Success? ==> r.value.player.poisonDamage == p.poisonDamage
    ensures r.Success? ==> r.value.player.poisonTurnsLeft == p.poisonTurnsLeft
    ensures r.Success? && IsAlive(p) && !IsAlive(r.value.enemy) ==> IsAlive(r.value.player)
  {
    match ActionPhase(p, e, a, d.action)
    case Failure(err) => Failure(err)
    case Success(mid) =>
      if IsAlive(mid.enemy) then Success(ReactionPhase(mid.player, mid.enemy, d.roll, d.reaction))
      else Success(mid)
  }

  /** One iteration of the battle loop: the player's poison ticks, then the
      enemy's, then the turn is resolved on the ticked fighters whether or
      not a tick was fatal. */
  function Round(p: Fighter, e: Fighter, t: Turn): (r: Result<Duel>)
    requires Valid(p) && Valid(e) && DrawsFit(p.atk, e.atk, t.action, t.draws)
    ensures r.Failure? <==> t.action == Special && p.kind == Dragon
    ensures r.Success? ==> ValidDuel(r.value) && SameBuilds(Duel(p, e), r.value)
    ensures r.Success? && !IsPoisoned(p) ==>
              r.value.player.poisonDamage == p.poisonDamage && !IsPoisoned(r.value.player)
    ensures r.Success? && IsAlive(p) && !IsPoisoned(p) ==>
              IsAlive(r.value.player) || IsAlive(r.value.enemy)
  {
    var p' := TickPoison(p).after;
    var e' := TickPoison(e).after;
    ResolveTurn(p', e', t.action, t.draws)
  }

  /** The battle loop over a finite script of turns: rounds are played while
      both fighters are alive and turns remain. */
  function Fight(p: Fighter, e: Fighter, script: seq<Turn>): (r: Result<Duel>)
    requires Valid(p) && Valid(e) && ScriptFits(p.atk, e.atk, script)
    ensures r.Success? ==> ValidDuel(r.value) && SameBuilds(Duel(p, e), r.value)
    ensures r.Success? && !IsPoisoned(p) ==> !IsPoisoned(r.value.player)
    ensures r.Failure? ==> p.kind == Dragon
    decreases |script|
  {
    if |script| == 0 || !IsAlive(p) || !IsAlive(e) then Success(Duel(p, e))
    else
      match Round(p, e, script[0])
      case Failure(err) => Failure(err)
      case Success(d) =>
        assert ScriptFits(d.player.atk, d.enemy.atk, script[1..]) by {
          forall i | 0 <= i < |script[1..]|
            ensures DrawsFit(p.atk, e.atk, script[1..][i].action, script[1..][i].draws)
          {
            assert script[1..][i] == script[i + 1];
          }
        }
        Fight(d.player, d.enemy, script[1..])
  }

  /** One unfolding of `Fight`: with turns left and both fighters up, the
      battle is the first round followed by the battle over the rest. */
  lemma FightStep(p: Fighter, e: Fighter, script: seq<Turn>)
    requires Valid(p) && Valid(e) && ScriptFits(p.atk, e.atk, script)
    requires |script| > 0 && IsAlive(p) && IsAlive(e)
    ensures Round(p, e, script[0]).Failure? ==>
              Fight(p, e, script) == Failure(Round(p, e, script[0]).error)
    ensures Round(p, e, script[0]).Success? ==>
              var d := Round(p, e, script[0]).value;
              && ScriptFits(d.player.atk, d.enemy.atk, script[1..])
              && Fight(p, e, script) == Fight(d.player, d.enemy, script[1..])
  {
    assert forall i | 0 <= i < |script[1..]| :: script[1..][i] == script[i + 1];
  }

  /** The battle loop as the program runs it, one round per iteration. It
      stops early only when a fighter is down or a dragon tries a special
      attack, and agrees with `Fight`. */
  method RunBattle(p0: Fighter, e0: Fighter, script: seq<Turn>) returns (r: Result<Duel>, played: nat)
    requires Valid(p0) && Valid(e0) && ScriptFits(p0.atk, e0.atk, script)
    ensures r == Fight(p0, e0, script)
    ensures played <= |script|
    ensures r.Success? && played < |script| ==> !IsAlive(r.value.player) || !IsAlive(r.value.enemy)
    ensures r.Failure? ==> 0 < played && script[played - 1].action == Special
  {
    var p, e := p0, e0;
    var i := 0;
    while i < |script| && IsAlive(p) && IsAlive(e)
      invariant 0 <= i <= |script|
      invariant Valid(p) && Valid(e) && p.atk == p0.atk && e.atk == e0.atk
      invariant Fight(p0, e0, script) == Fight(p, e, script[i..])
      decreases |script| - i
    {
      FightStep(p, e, script[i..]);
      assert script[i..][0] == script[i] && script[i..][1..] == script[i + 1..];
      var res := Round(p, e, script[i]);
      if res.Failure? {
        return Failure(res.error), i + 1;
      }
      p, e := res.value.player, res.value.enemy;
      i := i + 1;
    }
    r, played := Success(Duel(p, e)), i;
  }

  // ---------------------------------------------------------------------
  // Lemmas

  /** Counts the rolls in `lo..hi` that the table maps to `k`. */
  function CountRolls(k: Reaction, lo: int, hi: int): nat
    decreases hi + 1 - lo
  {
    if lo > hi then 0
    else (if ReactionFor(lo) == k then 1 else 0) + CountRolls(k, lo + 1, hi)
  }

  lemma {:induction false} CountSplit(k: Reaction, lo: int, m: int, hi: int)
    requires lo <= m + 1 <= hi + 1
    ensures CountRolls(k, lo, hi) == CountRolls(k, lo, m) + CountRolls(k, m + 1, hi)
    decreases m + 1 - lo
  {
    if lo <= m {
      CountSplit(k, lo + 1, m, hi);
    }
  }

  /** Rolls 1 to 7 all map to the same reaction. */
  lemma {:induction false} CountAttackBand(k: Reaction, lo: int)
    requires 1 <= lo <= 8
    ensures CountRolls(k, lo, 7) == if k == CounterAttack then 8 - lo else 0
    decreases 8 - lo
  {
    if lo <= 7 {
      CountAttackBand(k, lo + 1);
    }
  }

  /** Of the ten rolls, seven attack, one defends, one steals and one heals. */
  lemma ReactionOdds(k: Reaction)
    ensures CountRolls(k, 1, 10) == if k == CounterAttack then 7 else 1
  {
    CountSplit(k, 1, 7, 10);
    CountSplit(k, 8, 8, 10);
    CountSplit(k, 9, 9, 10);
    CountAttackBand(k, 1);
    assert CountRolls(k, 8, 8) == if k == Brace then 1 else 0;
    assert CountRolls(k, 9, 9) == if k == Drain then 1 else 0;
    assert CountRolls(k, 10, 10) == if k == Recover then 1 else 0;
  }

  /** An unpoisoned player who starts the battle alive is never both down
      together with the enemy: the battle always has a survivor. */
  lemma {:induction false} FightHasSurvivor(p: Fighter, e: Fighter, script: seq<Turn>)
    requires Valid(p) && Valid(e) && ScriptFits(p.atk, e.atk, script)
    requires IsAlive(p) && !IsPoisoned(p)
    requires Fight(p, e, script).Success?
    ensures IsAlive(Fight(p, e, script).value.player) || IsAlive(Fight(p, e, script).value.enemy)
    decreases |script|
  {
    if |script| > 0 && IsAlive(p) && IsAlive(e) {
      var d := Round(p, e, script[0]).value;
      assert ScriptFits(d.player.atk, d.enemy.atk, script[1..]) by {
        forall i | 0 <= i < |script[1..]|
          ensures DrawsFit(p.atk, e.atk, script[1..][i].action, script[1..][i].draws)
        {
          assert script[1..][i] == script[i + 1];
        }
      }
      if IsAlive(d.player) {
        FightHasSurvivor(d.player, d.enemy, script[1..]);
      }
    }
  }

  /** The program's own battle: a freshly built player of any archetype
      against a fresh dragon. It ends with a survivor, and both fighters keep
      the stats their archetype gave them. */
  lemma MainBattleHasSurvivor(name: string, role: FighterType, script: seq<Turn>)
    requires ScriptFits(New(name, role).atk, New("Shadow", Dragon).atk, script)
    requires Fight(New(name, role), New("Shadow", Dragon), script).Success?
    ensures var end := Fight(New(name, role), New("Shadow", Dragon), script).value;
            && (IsAlive(end.player) || IsAlive(end.enemy))
            && SameBuild(New(name, role), end.player)
            && SameBuild(New("Shadow", Dragon), end.enemy)
  {
    FightHasSurvivor(New(name, role), New("Shadow", Dragon), script);
  }

  /** Worked example: a warrior attacks a fresh dragon for exactly its attack
      stat and the dragon answers with an attack of exactly its own. */
  lemma OpeningExchange()
    ensures var r := Round(New("Hero", Warrior), New("Shadow", Dragon), Turn(Attack, Draws(15, 1, 10)));
            && r.Success?
            && r.value.player.currentHP == 290
            && r.value.enemy.currentHP == 485
  {
  }

  /** A poison tick that finishes the enemy does not cancel the player's
      action, and the dead enemy does not react. */
  lemma FatalTickStillActs(p: Fighter, e: Fighter, d: Draws)
    requires Valid(p) && Valid(e) && DrawsFit(p.atk, e.atk, HealSelf, d)
    requires !IsPoisoned(p) && IsPoisoned(e) && e.currentHP <= e.poisonDamage
    ensures var r := Round(p, e, Turn(HealSelf, d));
            && r.Success?
            && r.value.player == Heal(p, 20)
            && !IsAlive(r.value.enemy)
  {
  }
}
