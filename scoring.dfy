/** The scoring rules inside `AnagramGame.check_guess` and `check_hints`
    (anagram_bot.py): the race window that decides who shares a round, the
    streak record and its bonus, the daily powerup counter, the points of a
    turn, the acumen update and the classification of a wrong guess. */
module Scoring {
  import opened Common
  import opened Levenshtein

  // ---------------------------------------------------------------------
  // Race window (`recent_answers`)

  /** Correct answers closer than this to the earliest kept one share the
      round when capitalised. */
  const RaceWindow: real := 1.2
  /** ... and closer than this when not. */
  const PlainWindow: real := 1.0

  /** One stored correct answer: `(user_id, guess_time)`. */
  datatype Answer = Answer(user: UserId, time: real)

  /** `[ans for ans in cached if guess_time - ans[1] <= 1.2]` */
  function Within(w: seq<Answer>, t: real): (r: seq<Answer>)
    ensures |r| <= |w|
    ensures forall k :: 0 <= k < |r| ==> t - r[k].time <= RaceWindow
    ensures forall k :: 0 <= k < |r| ==> r[k] in w
  {
    if w == [] then []
    else (if t - w[0].time <= RaceWindow then [w[0]] else []) + Within(w[1..], t)
  }

  /** The filter works element by element, so it keeps the stored order. */
  lemma {:induction false} WithinConcat(a: seq<Answer>, b: seq<Answer>, t: real)
    ensures Within(a + b, t) == Within(a, t) + Within(b, t)
    decreases |a|
  {
    if a != [] {
      WithinConcat(a[1..], b, t);
      assert (a + b)[1..] == a[1..] + b;
    } else {
      assert a + b == b;
    }
  }

  /** Every answer at most 1.2 s old survives the pruning filter. */
  lemma {:induction false} WithinKeepsRecent(w: seq<Answer>, t: real, a: Answer)
    requires a in w && t - a.time <= RaceWindow
    ensures a in Within(w, t)
  {
    if w[0] != a {
      WithinKeepsRecent(w[1..], t, a);
    }
  }

  /** The stored answers once the guess at time `t` has pruned them: only
      when the earliest is more than 1.2 s old are the stale ones dropped. */
  function Pruned(w: seq<Answer>, t: real): (r: seq<Answer>)
    ensures r != [] ==> t - r[0].time <= RaceWindow
    ensures w != [] && t - w[0].time <= RaceWindow ==> r == w
  {
    if w != [] && t - w[0].time > RaceWindow then Within(w, t) else w
  }

  /** The stored answers after a correct guess by `user` at `t`. */
  function Joined(w: seq<Answer>, user: UserId, t: real): (r: seq<Answer>)
    ensures r != [] && r[|r| - 1] == Answer(user, t)
    ensures |r| == 1 || t - r[0].time <= RaceWindow
  {
    Pruned(w, t) + [Answer(user, t)]
  }

  /** `multiplier_answer_not_first` for a guess at `t` once it has joined
      the window `w`; `None` is the bare `return` that scores nothing. */
  function RaceMultiplier(w: seq<Answer>, t: real, capital: bool): (m: Option<real>)
    requires w != []
    ensures |w| == 1 ==> m == Some(1.0)
    ensures |w| > 1 && m.Some? ==> m == Some(0.5)
    ensures |w| > 1 && t - w[0].time <= PlainWindow ==> m == Some(0.5)
    ensures |w| > 1 && RaceWindow < t - w[0].time ==> m == None
    ensures |w| > 1 && PlainWindow < t - w[0].time <= RaceWindow ==> (m.Some? <==> capital)
  {
    if |w| == 1 then Some(1.0)
    else if capital && t - w[0].time <= RaceWindow then Some(0.5)
    else if t - w[0].time <= PlainWindow then Some(0.5)
    else None
  }

  /** When every stored answer is more than 1.2 s old, or there is none,
      the guess opens a fresh window and earns full credit. */
  lemma FirstAnswerFullCredit(w: seq<Answer>, user: UserId, t: real, capital: bool)
    requires forall k :: 0 <= k < |w| ==> t - w[k].time > RaceWindow
    ensures Joined(w, user, t) == [Answer(user, t)]
    ensures RaceMultiplier(Joined(w, user, t), t, capital) == Some(1.0)
  {
  }

  /** A capitalised correct guess is never ignored: after pruning, whatever
      is left is within 1.2 s. */
  lemma CapitalisedNeverIgnored(w: seq<Answer>, user: UserId, t: real)
    ensures RaceMultiplier(Joined(w, user, t), t, true).Some?
  {
  }

  /** An uncapitalised correct guess is ignored exactly when it joins
      someone else's window between 1.0 s and 1.2 s after its first answer. */
  lemma PlainIgnoredExactly(w: seq<Answer>, user: UserId, t: real)
    ensures RaceMultiplier(Joined(w, user, t), t, false).None?
            <==> Pruned(w, t) != [] && PlainWindow < t - Pruned(w, t)[0].time
  {
    var j := Joined(w, user, t);
    if Pruned(w, t) != [] {
      assert j[0] == Pruned(w, t)[0];
    }
  }

  /** Three racers: the first at 100.0 s gets full credit; a second at
      100.3 s gets half; a third at 101.1 s gets half only if capitalised. */
  lemma RaceScenario()
    ensures RaceMultiplier(Joined([], 1, 100.0), 100.0, false) == Some(1.0)
    ensures RaceMultiplier(Joined([Answer(1, 100.0)], 2, 100.3), 100.3, false) == Some(0.5)
    ensures RaceMultiplier(Joined([Answer(1, 100.0), Answer(2, 100.3)], 3, 101.1), 101.1, false) == None
    ensures RaceMultiplier(Joined([Answer(1, 100.0), Answer(2, 100.3)], 3, 101.1), 101.1, true) == Some(0.5)
  {
  }

  // ---------------------------------------------------------------------
  // Streaks

  /** `streaks[server]`: `[user_id, current streak]`; holder 0 means nobody. */
  datatype Streak = Streak(holder: UserId, count: int)

  /** The `defaultdict` default and the reset value of a timeout. */
  const NoStreak: Streak := Streak(0, 0)

  /** The new record and the `streak` the bonus is computed from. */
  datatype StreakStep = StreakStep(record: Streak, streak: int)

  /** The streak rule for a correct guess by `user`; `full` says it earned
      the full race multiplier. */
  function NextStreak(s: Streak, user: UserId, full: bool): (r: StreakStep)
    ensures full ==> r.record.holder == user && r.streak == r.record.count
    ensures full && s.holder == user ==> r.streak == s.count + 1
    ensures full && s.holder != user ==> r.streak == 1
    ensures !full ==> r.streak == 1
    ensures !full && s.holder != 0 ==> r.record == s
    ensures !full && s.holder == 0 ==> r.record == Streak(user, 1)
  {
    if full && s.holder == user then StreakStep(Streak(user, s.count + 1), s.count + 1)
    else if full || s.holder == 0 then StreakStep(Streak(user, 1), 1)
    else StreakStep(s, 1)
  }

  /** The record after `k` full-credit wins in a row by `user`. */
  function Wins(s: Streak, user: UserId, k: nat): Streak
    decreases k
  {
    if k == 0 then s else Wins(NextStreak(s, user, true).record, user, k - 1)
  }

  /** `k` consecutive full-credit wins by the same user make that user the
      holder with a count of `k`, added on top of a streak they already held. */
  lemma {:induction false} ConsecutiveWins(s: Streak, user: UserId, k: nat)
    requires k > 0
    ensures Wins(s, user, k).holder == user
    ensures Wins(s, user, k).count == if s.holder == user then s.count + k else k
    decreases k
  {
    if k > 1 {
      ConsecutiveWins(NextStreak(s, user, true).record, user, k - 1);
    }
  }

  /** `42 * (streak // 5) if streak % 5 == 0 else (5 if streak > 5 else 0)` */
  function StreakBonus(n: int): (b: int)
    ensures 0 <= n ==> 0 <= b
    ensures 0 < n < 5 ==> b == 0
    ensures 0 < n && n % 5 == 0 ==> 42 <= b && b * 5 == 42 * n
    ensures 5 < n && n % 5 != 0 ==> b == 5
  {
    if n % 5 == 0 then 42 * (n / 5) else if n > 5 then 5 else 0
  }

  /** The bonus grows with every fifth win and, from the fifth win on, a win
      never earns less than 5. */
  lemma StreakBonusShape(n: int, m: int)
    requires 5 <= n
    ensures 5 <= StreakBonus(n)
    ensures 0 < n <= m && n % 5 == 0 && m % 5 == 0 ==> StreakBonus(n) <= StreakBonus(m)
  {
  }

  /** Five straight wins pay 42, the sixth 5, the tenth 84. */
  lemma StreakScenario(user: UserId)
    requires user != 0
    ensures Wins(NoStreak, user, 5) == Streak(user, 5)
    ensures StreakBonus(5) == 42 && StreakBonus(6) == 5 && StreakBonus(10) == 84
  {
    ConsecutiveWins(NoStreak, user, 5);
  }

  // ---------------------------------------------------------------------
  // Powerups

  /** `use_powerup` grants this many doubled turns. */
  const PowerupTurns: int := 3

  /** The daily multiplier of a turn and the counter left afterwards. */
  datatype PowerupStep = PowerupStep(daily: int, left: int)

  function SpendPowerup(p: int): (r: PowerupStep)
    ensures 0 <= p <= PowerupTurns ==> 0 <= r.left <= PowerupTurns
    ensures r.daily == 2 <==> p > 0
    ensures r.daily == 1 <==> p <= 0
    ensures p > 0 ==> r.left == p - 1
    ensures p <= 0 ==> r.left == p
  {
    if p > 0 then PowerupStep(2, p - 1) else PowerupStep(1, p)
  }

  /** The daily multipliers of the next `n` correct answers. */
  function Dailies(p: int, n: nat): (r: seq<int>)
    ensures |r| == n
    decreases n
  {
    if n == 0 then [] else [SpendPowerup(p).daily] + Dailies(SpendPowerup(p).left, n - 1)
  }

  /** A grant doubles exactly the next three correct answers. */
  lemma {:induction false} GrantLastsThreeTurns(n: nat)
    ensures Dailies(PowerupTurns, n + 3) == [2, 2, 2] + Dailies(0, n)
    ensures forall k :: 0 <= k < n ==> Dailies(0, n)[k] == 1
  {
    assert Dailies(1, n + 1) == [2] + Dailies(0, n);
    assert Dailies(2, n + 2) == [2] + Dailies(1, n + 1);
    assert Dailies(3, n + 3) == [2] + Dailies(2, n + 2);
    NoGrantNoDouble(n);
  }

  lemma {:induction false} NoGrantNoDouble(n: nat)
    ensures forall k :: 0 <= k < n ==> Dailies(0, n)[k] == 1
    decreases n
  {
    if n > 0 {
      NoGrantNoDouble(n - 1);
    }
  }

  // ---------------------------------------------------------------------
  // Points

  /** `(base_points + streak_bonus) * daily_multiplier * multiplier_answer_not_first`.
      No time decay is applied. */
  function TurnPoints(basePoints: int, bonus: int, daily: int, race: real): (r: real)
    ensures race == 1.0 ==> r == ((basePoints + bonus) * daily) as real
    ensures race == 0.5 ==> 2.0 * r == ((basePoints + bonus) * daily) as real
  {
    ((basePoints + bonus) * daily) as real * race
  }

  /** Credit for a guess that is another valid word: `points += 20`. */
  const PartialCreditPoints: int := 20

  // ---------------------------------------------------------------------
  // Acumen

  /** `max(1, min(100, int(acumen + 11 - acumen/10 - shift)))`, where `shift`
      is the `30 * (1 - exp(-0.025 * elapsed))` term, kept abstract. */
  function NewAcumen(acumen: int, shift: real): (r: int)
    ensures 1 <= r <= 100
  {
    Clamp(1, 100, Trunc(acumen as real + 11.0 - acumen as real / 10.0 - shift))
  }

  /** With the elapsed time taken as `start - guess` the shift is never
      positive; then every correct answer raises an acumen in [1, 100] by
      at least one, up to the cap. */
  lemma AcumenRises(acumen: int, shift: real)
    requires 1 <= acumen <= 100 && shift <= 0.0
    ensures NewAcumen(acumen, shift) >= if acumen + 1 < 100 then acumen + 1 else 100
  {
    var x := acumen as real + 11.0 - acumen as real / 10.0 - shift;
    assert (acumen + 1) as real <= x;
    TruncMonotone((acumen + 1) as real, x);
  }

  /** A larger shift (a slower answer, had elapsed been positive) never
      gives a higher acumen. */
  lemma NewAcumenAntitone(acumen: int, s1: real, s2: real)
    requires s1 <= s2
    ensures NewAcumen(acumen, s2) <= NewAcumen(acumen, s1)
  {
    TruncMonotone(acumen as real + 11.0 - acumen as real / 10.0 - s2,
                  acumen as real + 11.0 - acumen as real / 10.0 - s1);
  }

  // ---------------------------------------------------------------------
  // Wrong guesses (`check_hints`)

  /** The four outcomes of `check_hints`, plus the IndexError the edit walk
      can raise. */
  datatype HintOutcome =
    | PartialCredit          // (True, "You got 20 points ...")
    | LetterHint(letter: char) // (False, letter)
    | TypoHint               // (False, "Please check typos")
    | NoHint                 // (False, None)
    | HintIndexError

  /** The outcome and this round's `other_answers` afterwards. */
  datatype HintCheck = HintCheck(outcome: HintOutcome, credited: set<string>)

  /** `check_hints(guess, word, server)` with `other_answers` a set. */
  function CheckHints(guess: string, word: string, otherWords: set<string>, credited: set<string>): (r: HintCheck)
    ensures r.outcome == PartialCredit <==> guess in otherWords && guess !in credited
    ensures r.outcome == PartialCredit ==> r.credited == credited + {guess}
    ensures r.outcome != PartialCredit ==> r.credited == credited
    ensures r.outcome.LetterHint? ==> Distance(guess, word) == 1 && r.outcome.letter in word
    ensures r.outcome == TypoHint ==> Distance(guess, word) <= 2
    ensures r.outcome == NoHint ==> 2 < Distance(guess, word)
    ensures r.outcome == HintIndexError ==> Distance(guess, word) == 1
    // Without partial credit, the outcome is read off the edit walk.
    ensures !(guess in otherWords && guess !in credited) ==>
              (r.outcome == HintIndexError <==> EditOutcome(guess, word).IndexOutOfRange?)
    ensures !(guess in otherWords && guess !in credited) ==>
              (r.outcome.LetterHint? <==> EditOutcome(guess, word).Computed? && EditOutcome(guess, word).letter.Some?)
    ensures r.outcome.LetterHint? ==> EditOutcome(guess, word) == Computed(1, Some(r.outcome.letter))
    ensures !(guess in otherWords && guess !in credited) ==>
              (r.outcome == TypoHint <==> EditOutcome(guess, word).Computed? && Distance(guess, word) <= 2
                                          && EditOutcome(guess, word).letter.None?)
    ensures !(guess in otherWords && guess !in credited) ==>
              (r.outcome == NoHint <==> EditOutcome(guess, word).Computed? && 2 < Distance(guess, word))
  {
    if guess in otherWords && guess !in credited then
      HintCheck(PartialCredit, credited + {guess})
    else
      var e := EditOutcome(guess, word);
      EditOutcomeDistance(guess, word);
      WalkLetterInTarget(guess, word, |guess|, |word|);
      HintCheck(
        match e
        case IndexOutOfRange => HintIndexError
        case Computed(d, letter) =>
          if d > 2 then NoHint
          else if letter.Some? then LetterHint(letter.value)
          else TypoHint,
        credited)
  }

  /** Each alternate word earns partial credit at most once per round. */
  lemma PartialCreditOnce(guess: string, word: string, otherWords: set<string>, credited: set<string>)
    ensures var first := CheckHints(guess, word, otherWords, credited);
            CheckHints(guess, word, otherWords, first.credited).outcome != PartialCredit
  {
  }

  /** Swapped neighbours are two edits apart, so "tigre" for "tiger" gets
      the generic typo hint rather than a letter. */
  lemma TigreGetsTypoHint(otherWords: set<string>, credited: set<string>)
    requires "tigre" !in otherWords
    ensures CheckHints("tigre", "tiger", otherWords, credited).outcome == TypoHint
  {
    TigreTiger();
  }

  /** One substituted letter in a guess earns a reaction with the word's
      letter at that place, e.g. 'e' for "plant" against "plane". */
  lemma SubstitutionGetsLetter(guess: string, word: string, k: nat, otherWords: set<string>, credited: set<string>)
    requires guess !in otherWords
    requires |guess| == |word| && k < |guess| && guess[k] != word[k]
    requires forall m :: 0 <= m < |guess| && m != k ==> guess[m] == word[m]
    ensures CheckHints(guess, word, otherWords, credited).outcome == LetterHint(word[k])
  {
    Substitution(guess, word, k);
  }

  /** `check_hints` as written: `other_answers` starts as the dict `{}`, so
      `guess not in {}` holds and `{}.add(guess)` raises AttributeError for
      every guess that is another valid word. `None` is that crash. */
  function CheckHintsAsWritten(guess: string, word: string, otherWords: set<string>): (r: Option<HintOutcome>)
    ensures r.None? <==> guess in otherWords
    ensures r.Some? ==> r.value == CheckHints(guess, word, otherWords, {}).outcome
  {
    if guess in otherWords then None
    else Some(CheckHints(guess, word, otherWords, {}).outcome)
  }

  /** As written no alternate word is ever credited; with a set it is
      credited the first time. */
  lemma AlternateWordNeverCredited(guess: string, word: string, otherWords: set<string>)
    requires guess in otherWords
    ensures CheckHintsAsWritten(guess, word, otherWords).None?
    ensures CheckHints(guess, word, otherWords, {}).outcome == PartialCredit
  {
  }
}
