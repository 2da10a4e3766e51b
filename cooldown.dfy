/** `CooldownManager` (anagram_bot.py): the per-server wait between rounds.
    Correct answers halve it, timeouts grow it by a fifth, and a fourth miss
    in a row jumps to the maximum ("sleep mode"). */
module Cooldown {
  import opened Common

  const BaseCooldown: int := 180
  const MinCooldown: int := 15
  const MaxCooldown: int := 900

  /** The state of one server: current cooldown and consecutive misses. */
  datatype Pace = Pace(cooldown: int, misses: int)

  predicate InRange(c: int) {
    MinCooldown <= c <= MaxCooldown
  }

  /** `int(min(max_cooldown, c * 1.2))`. The product is taken exactly here;
      for the integer cooldowns that occur, the rounded double product
      truncates to the same integer. */
  function Grown(c: int): (r: int)
    ensures 0 <= c ==> c <= r <= MaxCooldown || (MaxCooldown < c && r == MaxCooldown)
    ensures 0 <= c <= MaxCooldown ==> r <= MaxCooldown && c <= r
    ensures 0 <= c < 750 ==> r as real <= c as real * 1.2 < r as real + 1.0
    ensures 750 <= c ==> r == MaxCooldown
  {
    Trunc(if MaxCooldown as real <= c as real * 1.2 then MaxCooldown as real else c as real * 1.2)
  }

  /** The effect of `adjust_cooldown(server, correct)` on one server. */
  function Adjusted(p: Pace, correct: bool): (r: Pace)
    ensures InRange(p.cooldown) ==> InRange(r.cooldown)
    ensures correct ==> r.misses == 0
    ensures correct && MinCooldown <= p.cooldown < MaxCooldown ==> r.cooldown <= p.cooldown
    ensures !correct && 0 <= p.cooldown < MaxCooldown ==> r.misses == p.misses + 1 && p.cooldown <= r.cooldown
    ensures !correct && r.misses > 3 ==> r.cooldown == MaxCooldown
    // The values, outside sleep mode: `max(15, c // 2)` on a win, growth
    // by a fifth while the misses stay at three or fewer.
    ensures p.cooldown != MaxCooldown && correct ==>
              r.cooldown == (if p.cooldown / 2 < MinCooldown then MinCooldown else p.cooldown / 2)
    ensures p.cooldown != MaxCooldown && !correct ==> r.misses == p.misses + 1
    ensures p.cooldown != MaxCooldown && !correct && p.misses + 1 <= 3 ==> r.cooldown == Grown(p.cooldown)
    ensures p.cooldown != MaxCooldown && !correct && p.misses + 1 > 3 ==> r.cooldown == MaxCooldown
    // Leaving sleep mode: the reset to 180 with two misses comes first.
    ensures p.cooldown == MaxCooldown ==> r == (if correct then Pace(90, 0) else Pace(216, 3))
  {
    var start := if p.cooldown == MaxCooldown then Pace(BaseCooldown, 2) else p;
    if correct then
      Pace(if start.cooldown / 2 < MinCooldown then MinCooldown else start.cooldown / 2, 0)
    else if start.misses + 1 > 3 then
      Pace(MaxCooldown, start.misses + 1)
    else
      Pace(Grown(start.cooldown), start.misses + 1)
  }

  /** The effect of a sequence of round outcomes (`true` = answered). */
  function Run(p: Pace, outcomes: seq<bool>): Pace
    decreases |outcomes|
  {
    if outcomes == [] then p else Run(Adjusted(p, outcomes[0]), outcomes[1..])
  }

  /** Starting anywhere in [15, 900] (the default 180 included), the cooldown
      never leaves the range, whatever the outcomes. */
  lemma {:induction false} RunStaysInRange(p: Pace, outcomes: seq<bool>)
    requires InRange(p.cooldown)
    ensures InRange(Run(p, outcomes).cooldown)
    decreases |outcomes|
  {
    if outcomes != [] {
      RunStaysInRange(Adjusted(p, outcomes[0]), outcomes[1..]);
    }
  }

  /** Four timeouts in a row from a fresh server: 216, 259, 310, then sleep
      mode at 900 with four misses. */
  lemma FourTimeouts()
    ensures Adjusted(Pace(BaseCooldown, 0), false) == Pace(216, 1)
    ensures Adjusted(Pace(216, 1), false) == Pace(259, 2)
    ensures Adjusted(Pace(259, 2), false) == Pace(310, 3)
    ensures Adjusted(Pace(310, 3), false) == Pace(MaxCooldown, 4)
    ensures Run(Pace(BaseCooldown, 0), [false, false, false, false]) == Pace(MaxCooldown, 4)
  {
    assert [false, false, false, false][1..] == [false, false, false];
    assert [false, false, false][1..] == [false, false];
    assert [false, false][1..] == [false];
  }

  /** Leaving sleep mode: the reset to 180 with two misses happens first, so
      a correct answer then halves it to 90 with no misses, and a timeout
      grows it to 216 with three misses, one short of sleep mode again. */
  lemma LeavingSleepMode(m: int)
    ensures Adjusted(Pace(MaxCooldown, m), true) == Pace(90, 0)
    ensures Adjusted(Pace(MaxCooldown, m), false) == Pace(216, 3)
    ensures Adjusted(Pace(216, 3), false) == Pace(MaxCooldown, 4)
  {
  }

  /** Halving stops at the floor of 15. */
  lemma FloorIsAbsorbing(m: int)
    ensures Adjusted(Pace(MinCooldown, m), true) == Pace(MinCooldown, 0)
    ensures Adjusted(Pace(29, m), true) == Pace(MinCooldown, 0)
  {
  }

  class CooldownManager {
    var cooldowns: map<ServerId, int>
    var missCounts: map<ServerId, int>

    /** `self.cooldowns[server]` and `self.miss_counts[server]`, with the
        defaults of the two `defaultdict`s. */
    function PaceOf(server: ServerId): Pace
      reads this
    {
      Pace(if server in cooldowns then cooldowns[server] else BaseCooldown,
           if server in missCounts then missCounts[server] else 0)
    }

    ghost predicate Valid()
      reads this
    {
      forall s :: s in cooldowns ==> InRange(cooldowns[s])
    }

    constructor ()
      ensures Valid() && cooldowns == map[] && missCounts == map[]
    {
      cooldowns := map[];
      missCounts := map[];
    }

    /** `adjust_cooldown`: returns the new cooldown of `server`. */
    method AdjustCooldown(server: ServerId, correct: bool) returns (r: int)
      requires Valid()
      modifies this
      ensures Valid()
      ensures PaceOf(server) == Adjusted(old(PaceOf(server)), correct)
      ensures r == PaceOf(server).cooldown && InRange(r)
      ensures cooldowns == old(cooldowns)[server := r]
      ensures missCounts == old(missCounts)[server := PaceOf(server).misses]
    {
      var c, m := PaceOf(server).cooldown, PaceOf(server).misses;
      if c == MaxCooldown {
        m := 2;
        c := BaseCooldown;
      }
      if correct {
        c := if c / 2 < MinCooldown then MinCooldown else c / 2;
        m := 0;
      } else {
        m := m + 1;
        if m > 3 {
          c := MaxCooldown;  // sleep mode
        } else {
          c := Grown(c);
        }
      }
      cooldowns := cooldowns[server := c];
      missCounts := missCounts[server := m];
      r := cooldowns[server];
    }
  }
}
