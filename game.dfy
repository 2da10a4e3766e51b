/** `AnagramGame` (anagram_bot.py): the per-server rounds and the per-server
    and per-user tables that `check_guess`, `use_powerup` and
    `generate_anagram` read and update. */
module Game {
  import opened Common
  import opened Levenshtein
  import opened Acumen
  import opened Corpus
  import opened Hints
  import opened Scoring

  /** A server's `game_state` entry. `otherAnswers` is held as a set, the
      type the code uses it as. */
  datatype Round = Round(
    word: string,
    anagram: string,
    basePoints: int,
    firstHint: string,
    secondHint: string,
    definition: string,
    isBomb: bool,
    startTime: real,
    hint1Sent: bool,
    hint2Sent: bool,
    cooldownAdjusted: bool,
    otherAnswers: set<string>)

  /** `cooldown_times` default. */
  const DefaultCooldownTime: int := 100

  /** What `check_guess` hands back to the message handler. */
  datatype GuessOutcome =
    | NoRound                                              // `if not game_state: return`
    | EmptyGuess                                           // `guess[0]` raises IndexError
    | Ignored                                              // the race rule's bare `return`
    | Partial(total: real)                                 // `(20, msg)`
    | Hint(outcome: HintOutcome)                           // `(0, hint)`, `(0, None)` or the walk's IndexError
    | Scored(turn: real, total: real, bonus: int, acumen: int)  // the five-tuple

  datatype PowerupReply = PlayFirst | AlreadyUsedToday | Granted

  datatype SetupOutcome =
    | Started(round: Round)
    | EmptyTier          // `random.choice` on an empty tier raises IndexError
    | ShuffleUnfinished  // the shuffles supplied ran out before an acceptable one

  class AnagramGame {
    var gameState: map<ServerId, Round>
    var recentAnswers: map<ServerId, seq<Answer>>
    var streaks: map<ServerId, Streak>
    var powerups: map<UserKey, int>
    var cooldownTimes: map<ServerId, int>
    var acumenQueues: map<ServerId, seq<Entry>>
    /** The alternate answers read from `other_possible_answers`. */
    const otherWords: set<string>
    const wordsLevels: map<int, seq<WordEntry>>

    ghost predicate Valid()
      reads this
    {
      && wordsLevels.Keys == {1, 2, 3, 4, 5}
      && (forall k :: k in powerups ==> 0 <= powerups[k] <= PowerupTurns)
      && (forall s :: s in acumenQueues ==>
            |acumenQueues[s]| <= DefaultMaxSize && AcumensInRange(acumenQueues[s]))
    }

    /** `__init__`: empty tables and the corpus split into its five tiers. */
    constructor (rows: seq<WordEntry>, otherWords: set<string>)
      ensures Valid()
      ensures gameState == map[] && recentAnswers == map[] && streaks == map[]
      ensures powerups == map[] && cooldownTimes == map[] && acumenQueues == map[]
      ensures this.otherWords == otherWords
      ensures forall t :: 1 <= t <= 5 ==> wordsLevels[t] == Tier(rows, t)
    {
      var levels := SplitIntoTiers(rows);
      wordsLevels := levels;
      this.otherWords := otherWords;
      gameState := map[];
      recentAnswers := map[];
      streaks := map[];
      powerups := map[];
      cooldownTimes := map[];
      acumenQueues := map[];
    }

    /** `check_guess(user_id, server_id, guess, guess_time)`. The stored
        points and acumen are what `get_user_data` answers, `shift` stands
        for the `30 * (1 - exp(-0.025 * elapsed))` term and `now` for the
        clock `add_user_message` reads. */
    method CheckGuess(user: UserId, server: ServerId, guess: string, guessTime: real,
                      storedPoints: real, storedAcumen: int, shift: real -> real, now: real)
      returns (r: GuessOutcome)
      requires Valid()
      modifies this
      ensures Valid()
      ensures cooldownTimes == old(cooldownTimes)
      // No round, or an empty guess: nothing changes.
      ensures server !in old(gameState) ==> r == NoRound && unchanged(this)
      ensures server in old(gameState) && guess == [] ==> r == EmptyGuess && unchanged(this)
      // A wrong guess goes through `check_hints`.
      ensures server in old(gameState) && guess != [] && Lower(guess) != old(gameState)[server].word ==>
                && WrongGuessEffect(old(gameState), gameState, server, Lower(guess), otherWords, storedPoints, r)
                && recentAnswers == old(recentAnswers) && streaks == old(streaks)
                && powerups == old(powerups) && acumenQueues == old(acumenQueues)
      // A correct guess joins the race window and, unless ignored, scores.
      ensures server in old(gameState) && guess != [] && Lower(guess) == old(gameState)[server].word ==>
                && gameState == old(gameState)
                && CorrectGuessEffect(old(recentAnswers), old(streaks), old(powerups), old(acumenQueues),
                                      recentAnswers, streaks, powerups, acumenQueues,
                                      old(gameState)[server], user, server, IsUpper(guess[0]), guessTime,
                                      storedPoints, storedAcumen, shift, now, r)
    {
      if server !in gameState {
        return NoRound;
      }
      if guess == [] {
        return EmptyGuess;
      }
      var hasCapital := IsUpper(guess[0]);
      var g := Lower(guess);
      if gameState[server].word != g {
        r := CheckWrongGuess(server, g, storedPoints);
      } else {
        r := CheckCorrectGuess(user, server, hasCapital, guessTime, storedPoints, storedAcumen, shift, now);
      }
    }

    /** The `if not correct:` branch: `check_hints`, then 20 points for an
        alternate word or the hint. */
    method CheckWrongGuess(server: ServerId, g: string, storedPoints: real) returns (r: GuessOutcome)
      requires server in gameState
      modifies this`gameState
      ensures WrongGuessEffect(old(gameState), gameState, server, g, otherWords, storedPoints, r)
    {
      var round := gameState[server];
      var h := CheckHints(g, round.word, otherWords, round.otherAnswers);
      gameState := gameState[server := round.(otherAnswers := h.credited)];
      if h.outcome == PartialCredit {
        return Partial(storedPoints + PartialCreditPoints as real);
      }
      return Hint(h.outcome);
    }

    /** The `if correct:` branches: the race window, then the scoring and
        the server's acumen queue. */
    method CheckCorrectGuess(user: UserId, server: ServerId, capital: bool, guessTime: real,
                             storedPoints: real, storedAcumen: int, shift: real -> real, now: real)
      returns (r: GuessOutcome)
      requires Valid() && server in gameState
      modifies this`recentAnswers, this`streaks, this`powerups, this`acumenQueues
      ensures Valid()
      ensures CorrectGuessEffect(old(recentAnswers), old(streaks), old(powerups), old(acumenQueues),
                                 recentAnswers, streaks, powerups, acumenQueues,
                                 old(gameState[server]), user, server, capital, guessTime,
                                 storedPoints, storedAcumen, shift, now, r)
    {
      var round := gameState[server];
      var acumen := NewAcumen(storedAcumen, shift(round.startTime - guessTime));
      ghost var recent0, streaks0, powerups0, queues0 := recentAnswers, streaks, powerups, acumenQueues;
      var m := JoinRace(user, server, guessTime, capital);
      if m.None? {
        r := Ignored;
      } else {
        r := ScoreTurn(user, server, m.value, storedPoints, acumen);
        EnqueueAcumen(server, Entry(user, acumen, guessTime), now);
      }
      CorrectGuessEffectIntro(recent0, streaks0, powerups0, queues0, recentAnswers, streaks, powerups, acumenQueues,
                              round, user, server, capital, guessTime, storedPoints, storedAcumen, shift, now, r, m, acumen);
    }

    /** Lines 262-280: prune, append, and pick the race multiplier. */
    method JoinRace(user: UserId, server: ServerId, t: real, capital: bool) returns (m: Option<real>)
      modifies this`recentAnswers
      ensures recentAnswers == old(recentAnswers)[server := Joined(GetOr(old(recentAnswers), server, []), user, t)]
      ensures m == RaceMultiplier(Joined(GetOr(old(recentAnswers), server, []), user, t), t, capital)
    {
      var w := Joined(GetOr(recentAnswers, server, []), user, t);
      recentAnswers := recentAnswers[server := w];
      m := RaceMultiplier(w, t, capital);
    }

    /** Lines 297-313: streak, powerup, bonus and points. */
    method ScoreTurn(user: UserId, server: ServerId, race: real, storedPoints: real, acumen: int)
      returns (r: GuessOutcome)
      requires Valid() && server in gameState
      modifies this`streaks, this`powerups
      ensures Valid()
      ensures ScoreEffect(old(streaks), old(powerups), streaks, powerups,
                          old(gameState[server]), user, server, race, storedPoints, acumen, r)
    {
      var st := NextStreak(GetOr(streaks, server, NoStreak), user, race == 1.0);
      streaks := streaks[server := st.record];
      var key := UserKey(user, server);
      var pw := SpendPowerup(GetOr(powerups, key, 0));
      if pw.daily == 2 {
        powerups := powerups[key := pw.left];
      }
      var bonus := StreakBonus(st.streak);
      var turn := TurnPoints(gameState[server].basePoints, bonus, pw.daily, race);
      r := Scored(turn, storedPoints + turn, bonus, acumen);
    }

    /** `acumen_queues[server].add_user_message(...)`. */
    method EnqueueAcumen(server: ServerId, e: Entry, now: real)
      requires Valid() && 1 <= e.acumen <= 100
      modifies this`acumenQueues
      ensures Valid()
      ensures acumenQueues == old(acumenQueues)[server := Admitted(GetOr(old(acumenQueues), server, []), e, now, DefaultMaxSize)]
    {
      var q := GetOr(acumenQueues, server, []);
      assert |q| <= DefaultMaxSize && AcumensInRange(q);
      var r := Admitted(q, e, now, DefaultMaxSize);
      AdmittedInRange(q, e, now);
      acumenQueues := acumenQueues[server := r];
    }

    /** `use_powerup`, with the database lookup and the IST calendar-date
        comparison reduced to two flags. */
    method UsePowerup(user: UserId, server: ServerId, recordExists: bool, usedToday: bool)
      returns (r: PowerupReply)
      requires Valid()
      modifies this
      ensures Valid()
      ensures !recordExists ==> r == PlayFirst && unchanged(this)
      ensures recordExists && usedToday ==> r == AlreadyUsedToday && unchanged(this)
      ensures recordExists && !usedToday ==>
                r == Granted && powerups == old(powerups)[UserKey(user, server) := PowerupTurns]
      ensures gameState == old(gameState) && recentAnswers == old(recentAnswers)
      ensures streaks == old(streaks) && cooldownTimes == old(cooldownTimes)
      ensures acumenQueues == old(acumenQueues)
    {
      if !recordExists {
        return PlayFirst;
      }
      if usedToday {
        return AlreadyUsedToday;
      }
      powerups := powerups[UserKey(user, server) := PowerupTurns];
      return Granted;
    }

    /** The tier `generate_anagram` draws from, given the sampler's oracles. */
    function ChosenLevel(server: ServerId, pick: nat, coin1: real, coin2: real): (t: int)
      reads this
      requires GetOr(acumenQueues, server, []) != [] ==> pick < |GetOr(acumenQueues, server, [])|
      ensures 1 <= t <= 5
    {
      WordLevel(DynamicAcumen(GetOr(acumenQueues, server, []), pick, coin1, coin2))
    }

    /** `generate_anagram(server_id)`. The random choices are parameters:
        `pick`, `coin1`, `coin2` for the acumen sampler, `wordPick` for the
        word, `draws` for the successive shuffles and `bombRoll` for
        `randint(1, 100)`; `now` is the start time. */
    method GenerateAnagram(server: ServerId, pick: nat, coin1: real, coin2: real,
                           wordPick: nat, draws: seq<string>, bombRoll: int, now: real)
      returns (r: SetupOutcome)
      requires Valid()
      requires GetOr(acumenQueues, server, []) != [] ==> pick < |GetOr(acumenQueues, server, [])|
      requires var tier := wordsLevels[ChosenLevel(server, pick, coin1, coin2)];
               tier != [] ==>
                 && wordPick < |tier|
                 && forall k :: 0 <= k < |draws| ==> multiset(draws[k]) == multiset(tier[wordPick].word)
      modifies this`gameState
      ensures var level := old(ChosenLevel(server, pick, coin1, coin2));
              var tier := wordsLevels[level];
              && (r == EmptyTier <==> tier == [])
              && (tier == [] ==> gameState == old(gameState))
              && (tier != [] ==> SetupEffect(old(gameState), gameState, server, level, tier[wordPick], draws, otherWords, bombRoll, now, r))
    {
      var level := ChosenLevel(server, pick, coin1, coin2);
      var tier := wordsLevels[level];
      if tier == [] {
        return EmptyTier;
      }
      r := StartRound(server, level, tier[wordPick], draws, bombRoll, now);
    }

    /** The rest of `generate_anagram` once the word is drawn: shuffle,
        hints (the definition replaces the second one in tier 5), bomb flag,
        and the fresh round stored for the server. */
    method StartRound(server: ServerId, level: int, e: WordEntry, draws: seq<string>, bombRoll: int, now: real)
      returns (r: SetupOutcome)
      requires forall k :: 0 <= k < |draws| ==> multiset(draws[k]) == multiset(e.word)
      modifies this`gameState
      ensures r != EmptyTier
      ensures SetupEffect(old(gameState), gameState, server, level, e, draws, otherWords, bombRoll, now, r)
    {
      var shuffled := WordShuffle(e.word, otherWords, draws);
      if shuffled.None? {
        return ShuffleUnfinished;
      }
      var anagram := shuffled.value;
      NonEmptyWhenShuffled(e.word, anagram, otherWords);
      var hints := GenerateHints(e.word, anagram);
      var second := if level == 5 then e.definition else hints.second;
      var round := Round(e.word, anagram, e.basePoints, hints.first, second, e.definition,
                         bombRoll == 1, now, false, false, false, {});
      gameState := gameState[server := round];
      r := Started(round);
    }
  }

  /** A `defaultdict` read: a missing key reads as the default. */
  function GetOr<K, V>(m: map<K, V>, k: K, default: V): (v: V)
    ensures k in m ==> v == m[k]
    ensures k !in m ==> v == default
  {
    if k in m then m[k] else default
  }

  /** The effect of a wrong guess: `check_hints` against the round's word,
      the round's credited alternates updated, and 20 points or the hint
      reported. */
  ghost predicate WrongGuessEffect(before: map<ServerId, Round>, after: map<ServerId, Round>,
                                   server: ServerId, g: string, otherWords: set<string>,
                                   storedPoints: real, r: GuessOutcome)
    requires server in before
  {
    var round := before[server];
    var h := CheckHints(g, round.word, otherWords, round.otherAnswers);
    && r == (if h.outcome == PartialCredit then Partial(storedPoints + PartialCreditPoints as real) else Hint(h.outcome))
    && after == before[server := round.(otherAnswers := h.credited)]
  }

  /** The effect of a correct guess on the four tables it touches (`0` before,
      `1` after): it joins the race window; an ignored guess changes nothing
      else; a counted one is scored and queues the new acumen. */
  ghost predicate CorrectGuessEffect(
    recent0: map<ServerId, seq<Answer>>, streaks0: map<ServerId, Streak>,
    powerups0: map<UserKey, int>, queues0: map<ServerId, seq<Entry>>,
    recent1: map<ServerId, seq<Answer>>, streaks1: map<ServerId, Streak>,
    powerups1: map<UserKey, int>, queues1: map<ServerId, seq<Entry>>,
    round: Round, user: UserId, server: ServerId, capital: bool, t: real,
    storedPoints: real, storedAcumen: int, shift: real -> real, now: real, r: GuessOutcome)
  {
    var w := Joined(GetOr(recent0, server, []), user, t);
    var m := RaceMultiplier(w, t, capital);
    && recent1 == recent0[server := w]
    && (m.None? ==> r == Ignored && streaks1 == streaks0 && powerups1 == powerups0 && queues1 == queues0)
    && (m.Some? ==>
          var acumen := NewAcumen(storedAcumen, shift(round.startTime - t));
          && ScoreEffect(streaks0, powerups0, streaks1, powerups1, round, user, server, m.value, storedPoints, acumen, r)
          && queues1 == queues0[server := Admitted(GetOr(queues0, server, []), Entry(user, acumen, t), now, DefaultMaxSize)])
  }

  lemma CorrectGuessEffectIntro(
    recent0: map<ServerId, seq<Answer>>, streaks0: map<ServerId, Streak>,
    powerups0: map<UserKey, int>, queues0: map<ServerId, seq<Entry>>,
    recent1: map<ServerId, seq<Answer>>, streaks1: map<ServerId, Streak>,
    powerups1: map<UserKey, int>, queues1: map<ServerId, seq<Entry>>,
    round: Round, user: UserId, server: ServerId, capital: bool, t: real,
    storedPoints: real, storedAcumen: int, shift: real -> real, now: real, r: GuessOutcome,
    m: Option<real>, acumen: int)
    requires recent1 == recent0[server := Joined(GetOr(recent0, server, []), user, t)]
    requires m == RaceMultiplier(Joined(GetOr(recent0, server, []), user, t), t, capital)
    requires acumen == NewAcumen(storedAcumen, shift(round.startTime - t))
    requires m.None? ==> r == Ignored && streaks1 == streaks0 && powerups1 == powerups0 && queues1 == queues0
    requires m.Some? ==>
               && ScoreEffect(streaks0, powerups0, streaks1, powerups1, round, user, server, m.value, storedPoints, acumen, r)
               && queues1 == queues0[server := Admitted(GetOr(queues0, server, []), Entry(user, acumen, t), now, DefaultMaxSize)]
    ensures CorrectGuessEffect(recent0, streaks0, powerups0, queues0, recent1, streaks1, powerups1, queues1,
                               round, user, server, capital, t, storedPoints, storedAcumen, shift, now, r)
  {
  }

  /** A counted correct guess: the streak rule, one powerup turn spent, and
      the turn scored as `(base + bonus) * daily * race` on top of the
      stored points. */
  ghost predicate ScoreEffect(
    streaks0: map<ServerId, Streak>, powerups0: map<UserKey, int>,
    streaks1: map<ServerId, Streak>, powerups1: map<UserKey, int>,
    round: Round, user: UserId, server: ServerId, race: real, storedPoints: real, acumen: int, r: GuessOutcome)
  {
    var key := UserKey(user, server);
    var st := NextStreak(GetOr(streaks0, server, NoStreak), user, race == 1.0);
    var pw := SpendPowerup(GetOr(powerups0, key, 0));
    var bonus := StreakBonus(st.streak);
    var turn := TurnPoints(round.basePoints, bonus, pw.daily, race);
    && r == Scored(turn, storedPoints + turn, bonus, acumen)
    && streaks1 == streaks0[server := st.record]
    && powerups1 == SpentPowerups(powerups0, key)
  }

  /** A fresh round for `word`: an acceptable shuffle, the two hints, no
      hint sent, the cooldown not yet adjusted, no alternate credited. */
  ghost predicate FreshRound(round: Round, level: int, e: WordEntry, otherWords: set<string>, bombRoll: int, now: real)
  {
    && round.word == e.word && round.basePoints == e.basePoints && round.definition == e.definition
    && Acceptable(e.word, round.anagram, otherWords)
    && |e.word| > 0 && e.word[0] in round.anagram && e.word[|e.word| - 1] in round.anagram
    && round.firstHint == GenerateHints(e.word, round.anagram).first
    && round.secondHint == (if level == 5 then e.definition else GenerateHints(e.word, round.anagram).second)
    && round.isBomb == (bombRoll == 1)
    && round.startTime == now
    && !round.hint1Sent && !round.hint2Sent && !round.cooldownAdjusted
    && round.otherAnswers == {}
  }

  /** The round is started exactly when one of the shuffles is acceptable,
      and it is then the server's only change. */
  ghost predicate SetupEffect(before: map<ServerId, Round>, after: map<ServerId, Round>, server: ServerId,
                              level: int, e: WordEntry, draws: seq<string>, otherWords: set<string>,
                              bombRoll: int, now: real, r: SetupOutcome)
  {
    && (r.Started? <==> exists k :: 0 <= k < |draws| && Acceptable(e.word, draws[k], otherWords))
    && (r.Started? ==> after == before[server := r.round] && FreshRound(r.round, level, e, otherWords, bombRoll, now))
    && (!r.Started? ==> r == ShuffleUnfinished && after == before)
  }

  /** `powerups` after a scored turn: a positive counter is decremented. */
  function SpentPowerups(powerups: map<UserKey, int>, key: UserKey): (r: map<UserKey, int>)
    ensures key in powerups && powerups[key] > 0 ==> r == powerups[key := powerups[key] - 1]
    ensures !(key in powerups && powerups[key] > 0) ==> r == powerups
  {
    if key in powerups && powerups[key] > 0 then powerups[key := powerups[key] - 1] else powerups
  }

  /** Appending an entry whose acumen is in [1, 100] keeps the queue bounded
      by 20 and every queued acumen in [1, 100]. */
  lemma AdmittedInRange(q: seq<Entry>, e: Entry, now: real)
    requires |q| <= DefaultMaxSize && AcumensInRange(q)
    requires 1 <= e.acumen <= 100
    ensures var r := Admitted(q, e, now, DefaultMaxSize);
            |r| <= DefaultMaxSize && AcumensInRange(r)
  {
    var r := Admitted(q, e, now, DefaultMaxSize);
    forall k | 0 <= k < |r|
      ensures 1 <= r[k].acumen <= 100
    {
      if k < |r| - 1 {
        var i :| 0 <= i < |q| && q[i] == r[k];
      }
    }
  }

  /** An acceptable shuffle of a word exists only for a word with letters,
      so the hints' `word[0]` and `word[-1]` are there, and both letters are
      in the anagram. */
  lemma NonEmptyWhenShuffled(word: string, anagram: string, otherWords: set<string>)
    requires Acceptable(word, anagram, otherWords)
    ensures |word| > 0 && word[0] in anagram && word[|word| - 1] in anagram
  {
    assert word[0] in multiset(word);
    assert word[|word| - 1] in multiset(word);
  }
}
