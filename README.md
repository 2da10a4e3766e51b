# Anagram bot: game rules in Dafny

This project models the rules engine of a Discord anagram game. The bot posts
a shuffled word in each server's channel, and players race to unscramble it.

- A correct answer scores the word's base points and a streak bonus, doubled
  while a daily powerup lasts. A second player within the race window gets half.
- A wrong answer may earn partial credit for an alternative word. Otherwise it
  may get a typo hint: a single letter, shown as an emoji reaction, or a
  generic "check typos" reply.
- Each round has a lifetime. Two hints are sent along the way.
- A per-server cooldown between rounds shrinks when rounds are won and grows
  when they time out. After four timeouts in a row the server enters sleep
  mode.
- The difficulty of the next word follows the recent speed ("acumen") of the
  server's active players.

The modules follow the two source files:

| module | file | what it holds |
|---|---|---|
| `Common` | — | ids, `Option`, ASCII character classes, truncation |
| `Levenshtein` | `anagram_bot.py` | `simplified_levenshtein`. The DP table is filled in an `array2` against the recurrence `Dist`. The backtrack is the function `Walk`. |
| `Scoring` | `anagram_bot.py` | the race window, the streak record, the streak bonus, powerups, turn points, the acumen update and `check_hints` |
| `Acumen` | `anagram_bot.py` | `AcumenQueue` as a class over a `seq`, `get_dynamic_acumen` and the tier formula |
| `Corpus` | `anagram_bot.py` | the five-tier corpus split in `AnagramGame.__init__` |
| `Hints` | `anagram_bot.py` | `word_shuffle` (a retry loop) and `generate_hints` |
| `Cooldown` | `anagram_bot.py` | `CooldownManager` as a class over two maps, with the pure step `Adjusted` |
| `Game` | `anagram_bot.py` | `AnagramGame` as a class whose methods update its per-server and per-user maps |
| `Bot` | `main.py` | the round tick (`anagram_state.anagram_loop`) as a class over the game and the cooldown manager, and the message routing, dispatch, emoji and cooldown-guard rules of `on_message` |

Randomness is passed in as oracle parameters:

- `pick`, `coin1`, `coin2` for `get_dynamic_acumen`;
- `wordPick` for `random.choice` of a word;
- `draws` for the successive `random.shuffle` results;
- `bombRoll` for `random.randint`.

The clock is a parameter (`now`, `guessTime`). The database's stored points
and acumen are parameters too (`storedPoints`, `storedAcumen`).

Where the code and its documentation disagree, the model follows the code:

- The distance is plain Levenshtein. There is no transposition discount, so
  "tigre" against "tiger" is 2 (`Levenshtein.TigreTiger`).
- A substitution reports the target word's letter ("plant" against "plane"
  gives 'e').
- `check_hints` gives a typo hint for any distance up to 2, not only 1.
- After sleep mode, a correct answer first resets the cooldown to 180 and
  then halves it, giving 90.
- A timeout right after sleep mode gives 216 with three misses.
- For a cooldown between 241 and 299, the round lifetime `cooldown - 60` is
  shorter than the default 240 (`Bot.LifetimeDip`).
- The elapsed time fed to the acumen update is `start - guess`, which is
  negative. So a fast answer raises acumen by about 11 - acumen/10 and never
  lowers it (`Scoring.AcumenRises`).
- The dynamic acumen's downward bounce is floored at 20, but a sample below 20
  is returned unchanged.
- No time decay is applied to points.
- `guess[0]` raises IndexError on an empty guess. A message of digits only
  routes to exactly that empty guess (`Bot.DigitsGiveEmptyGuess`).
- The deletion branch of the backtrack indexes one past the end of the target
  when the guess has one extra trailing letter ("plants" against "plant"). The
  model returns `IndexOutOfRange` there, and `check_hints` passes it on as
  `HintIndexError`.
- Python's `isalpha`, `isupper`, `lower` and `split` are modelled on ASCII
  characters only.
- Every `defaultdict` read is a map lookup with the same default (`GetOr`,
  `PaceOf`, `PaceIn`).
- `game_state[server]["other_answers"]` is created as a dict but used as a set;
  the model holds it as a set (see Findings).

## Model

| member | source | states |
|---|---|---|
| Common.Trunc | anagram_bot.py:214 | Python's `int` on a float: the integer nearest to the value on the side of zero |
| Common.TruncMonotone | anagram_bot.py:214 | truncation never reverses the order of two values |
| Common.Clamp | anagram_bot.py:214 | `min`/`max` clamping: the value when in range, else the bound it passes |
| Common.Lower | anagram_bot.py:256 | `str.lower()`: same length, each upper-case ASCII letter replaced by its lower-case letter and every other character kept |
| Levenshtein.Dist | anagram_bot.py:19-35 | a cell in the first row or column holds the length of the other prefix, as the table is initialised; the inner cells follow the recurrence (`FillRow` proves the table equal to it) |
| Levenshtein.Walk | anagram_bot.py:36-49 | IndexError only from a deletion step in the table's last column; when no letter is named, the walk left through the first row and reports the full distance |
| Levenshtein.EditOutcome | anagram_bot.py:36-51 | away from distance 1 the result is the distance with no letter; IndexError only at distance 1 with a non-empty guess |
| Levenshtein.FillRow | anagram_bot.py:26-35 | row `i` of the table ends equal to the recurrence `Dist`; the rows below are untouched |
| Levenshtein.FillTable | anagram_bot.py:15-35 | every cell `dp[p][q]` is the unit-cost edit distance `Dist` of the prefixes, with first row `j` and first column `i` |
| Levenshtein.SimplifiedLevenshtein | anagram_bot.py:15-51 | the result is the backtrack's outcome (`EditOutcome`); a computed distance is the full edit distance; a letter is only ever reported at distance exactly 1 |
| Levenshtein.DistLowerBound | anagram_bot.py:15-35 | the distance is at least the difference of the two lengths |
| Levenshtein.DistUpperBound | anagram_bot.py:15-35 | the distance is at most the longer length |
| Levenshtein.DistSymmetric | anagram_bot.py:15-35 | swapping the two words leaves the distance unchanged |
| Levenshtein.CommonRun | anagram_bot.py:28-29 | a run of matching letters costs nothing and the backtrack steps over it |
| Levenshtein.DistanceZeroIff | anagram_bot.py:15-35 | distance 0 exactly when the words are equal |
| Levenshtein.WalkDistance | anagram_bot.py:36-51 | the backtrack reports the table's final distance |
| Levenshtein.EditOutcomeDistance | anagram_bot.py:36-51 | a computed outcome carries the true distance, and a letter only at distance 1 |
| Levenshtein.WalkLetterInTarget | anagram_bot.py:39-49 | any letter the backtrack reports is a letter of the target word |
| Levenshtein.Substitution | anagram_bot.py:44-47 | words differing at one position are at distance 1, and the target's letter at that position is reported |
| Levenshtein.ExtraLetter | anagram_bot.py:44-45 | a guess with one inserted letter is at distance 1; the report is the target letter after the insertion point, or IndexError when the insertion is at the end |
| Levenshtein.MissingLetter | anagram_bot.py:36-51 | a guess missing one letter is at distance 1; the missing letter is reported, except at position 0 where nothing is |
| Levenshtein.ExtraLeadingLetter | anagram_bot.py:48-49 | an extra first letter reports the target's first letter |
| Levenshtein.MissingLeadingLetter | anagram_bot.py:36-51 | a missing first letter reports no letter |
| Levenshtein.ExtraTrailingLetter | anagram_bot.py:44-45 | an extra last letter makes the deletion branch index past the end |
| Levenshtein.PlantPlane | anagram_bot.py:44-47 | ("plant", "plane") gives distance 1 and letter 'e' |
| Levenshtein.PlantsPlant | anagram_bot.py:44-45 | ("plants", "plant") raises IndexError |
| Levenshtein.TigreTiger | anagram_bot.py:15-35 | ("tigre", "tiger") is at distance 2 with no letter: swaps are not discounted |
| Scoring.Within | anagram_bot.py:264-267 | the pruned list keeps only answers from the list that are within 1.2 s of the guess |
| Scoring.WithinConcat | anagram_bot.py:264-267 | the pruning filter distributes over concatenation, so the kept answers stay in their stored order |
| Scoring.WithinKeepsRecent | anagram_bot.py:264-267 | pruning never drops an answer within 1.2 s |
| Scoring.Pruned | anagram_bot.py:262-268 | after pruning, the earliest answer is within 1.2 s; a list whose earliest answer is within 1.2 s is kept whole |
| Scoring.Joined | anagram_bot.py:262-271 | the guess is appended last, and it is either alone or within 1.2 s of the earliest answer |
| Scoring.RaceMultiplier | anagram_bot.py:273-280 | a lone answer gets 1; otherwise 0.5 within 1.0 s of the earliest, 0.5 between 1.0 s and 1.2 s exactly when capitalised, and ignored beyond 1.2 s |
| Scoring.FirstAnswerFullCredit | anagram_bot.py:262-274 | when every stored answer is older than 1.2 s, the guess stands alone with multiplier 1 |
| Scoring.CapitalisedNeverIgnored | anagram_bot.py:275-276 | a capitalised correct guess is never ignored |
| Scoring.PlainIgnoredExactly | anagram_bot.py:273-280 | a plain guess is ignored exactly when an answer survives pruning and the earliest one is more than 1.0 s old |
| Scoring.RaceScenario | anagram_bot.py:262-280 | answers at 100.0, 100.3 and 101.1: full, half, then ignored, or half if capitalised |
| Scoring.NextStreak | anagram_bot.py:297-302 | a full-credit answer by the holder increments the streak; by anyone else it resets to `[user, 1]`; a half-credit answer starts a streak only when there is no holder; the streak used for the bonus is 1 otherwise |
| Scoring.ConsecutiveWins | anagram_bot.py:298-300 | k full-credit wins in a row make the user the holder with the count grown by k, or k from someone else's streak |
| Scoring.StreakBonus | anagram_bot.py:309 | 42·(n/5) on multiples of 5, 5 above 5 otherwise, 0 below 5 |
| Scoring.StreakBonusShape | anagram_bot.py:309 | from 5 on the bonus is at least 5, and it grows across multiples of 5 |
| Scoring.StreakScenario | anagram_bot.py:297-309 | five wins from nothing give streak 5; bonuses are 42, 5 and 84 at 5, 6 and 10 |
| Scoring.SpendPowerup | anagram_bot.py:306-308 | the multiplier is 2 exactly when uses remain, and one use is then spent |
| Scoring.GrantLastsThreeTurns | anagram_bot.py:306-308 | a grant of 3 doubles exactly the next three turns |
| Scoring.NoGrantNoDouble | anagram_bot.py:306-308 | with no uses left every turn's multiplier is 1 |
| Scoring.TurnPoints | anagram_bot.py:311-312 | (base + bonus) × daily multiplier, halved for the second racer |
| Scoring.NewAcumen | anagram_bot.py:317 | the new acumen is clamped to [1, 100] |
| Scoring.AcumenRises | anagram_bot.py:317 | with the negative elapsed time the code computes, acumen rises by at least 1, up to 100 |
| Scoring.NewAcumenAntitone | anagram_bot.py:317 | a larger time penalty never gives a larger acumen |
| Scoring.CheckHints | anagram_bot.py:240-249 | partial credit exactly for an alternative word not yet credited, which is then recorded; otherwise the outcome follows `simplified_levenshtein`: IndexError exactly when it raises, the letter exactly when it returns `(1, letter)`, the typo hint exactly when it returns no letter at distance up to 2, and no hint exactly beyond 2 |
| Scoring.PartialCreditOnce | anagram_bot.py:241-243 | the same alternative word never earns credit twice in a round |
| Scoring.TigreGetsTypoHint | anagram_bot.py:244-249 | a swapped pair gets the generic typo hint |
| Scoring.SubstitutionGetsLetter | anagram_bot.py:244-248 | a one-letter substitution gets that letter of the word |
| Scoring.CheckHintsAsWritten | anagram_bot.py:240-242 | as written, any alternative word raises, and every other guess behaves as in the corrected version |
| Scoring.AlternateWordNeverCredited | anagram_bot.py:235-243 | as written, an alternative word never earns the partial credit that the corrected rule gives it |
| Acumen.Recent | anagram_bot.py:124-125 | only entries from the queue at most an hour old are kept |
| Acumen.RecentConcat | anagram_bot.py:124-125 | the hour filter distributes over concatenation, so kept entries stay in arrival order |
| Acumen.RecentKeepsFresh | anagram_bot.py:124-125 | no entry within the hour is dropped |
| Acumen.Admitted | anagram_bot.py:122-134 | first in, first out: the result is the newest entries of the entries within the hour followed by the new one, in arrival order; from a queue within its bound it holds all of them while the bound allows, else exactly the bound; the new entry is last |
| Acumen.AcumenQueue.constructor | anagram_bot.py:118-120 | an empty queue with the given bound |
| Acumen.AcumenQueue.AddUserMessage | anagram_bot.py:122-134 | the queue becomes the admitted queue |
| Acumen.DynamicAcumen | anagram_bot.py:136-150 | 20 for an empty queue; else the sampled acumen moved down 30 (floored at 20), up 30 (capped at 100), or kept, by the coins |
| Acumen.DynamicAcumenRange | anagram_bot.py:136-150 | with acumens in [1, 100] the result stays in [1, 100] and within 30 of the sample |
| Acumen.WordLevel | anagram_bot.py:214 | a tier in 1..5: 1 below 40, 5 from 100, otherwise acumen/20 |
| Acumen.WordLevelMonotone | anagram_bot.py:214 | a higher acumen never picks an easier tier |
| Corpus.TierOfIndex | anagram_bot.py:177-186 | row `idx` goes to the tier whose boundaries enclose it |
| Corpus.SplitIntoTiers | anagram_bot.py:168-186 | the five tier lists are exactly the contiguous slices between the boundaries |
| Corpus.SplitStep | anagram_bot.py:175-186 | appending one row to its tier keeps the slice invariant |
| Corpus.TierGrowth | anagram_bot.py:175-186 | one more row grows exactly its own tier by that row |
| Corpus.TiersPartitionCorpus | anagram_bot.py:162-186 | the five tiers concatenated give the corpus back, in order |
| Corpus.RowInItsTier | anagram_bot.py:175-186 | every row sits in the tier its index selects |
| Corpus.AllTiersNonEmpty | anagram_bot.py:162 | a corpus longer than 19100 rows fills all five tiers |
| Hints.WordShuffle | anagram_bot.py:192-197 | the result is the first acceptable draw (a permutation, not the word, not an alternative word); there is none exactly when no draw is acceptable |
| Hints.NoShuffleForRepeatedLetter | anagram_bot.py:194-195 | a word of one repeated letter has no acceptable arrangement, so the loop never ends |
| Hints.RemoveFirst | anagram_bot.py:202 | `list.remove` drops one copy of the letter: one shorter, same letters less that one |
| Hints.RemoveFirstAtFirstOccurrence | anagram_bot.py:202 | the copy removed is the first one, and the other letters keep their order |
| Hints.GenerateHints | anagram_bot.py:199-210 | hint 1 is the bolded first letter followed by the anagram with the first copy of that letter removed; hint 2 is hint 1 with the first copy of the last letter removed, followed by the bolded last letter; lengths + 4 and + 8 |
| Hints.HintsWhenEndsDiffer | anagram_bot.py:199-210 | with different first and last letters, hint 2 is bold first + anagram without both letters + bold last |
| Hints.RemoveAfterPrefix | anagram_bot.py:206-207 | removal skips a prefix that lacks the letter |
| Hints.HintsWhenEndsMatch | anagram_bot.py:206-208 | with equal first and last letters, the removal takes the bolded letter of hint 1, leaving "****" in front |
| Cooldown.Grown | anagram_bot.py:366-369 | below 750 the cooldown times 1.2, truncated; from 750 on 900; never shrinks |
| Cooldown.Adjusted | anagram_bot.py:348-370 | from 900, 90 after a correct answer and 216 with three misses after a timeout; otherwise a correct answer halves the cooldown (not below 15) and clears misses, a timeout counts a miss and grows the cooldown by `Grown`, or sets 900 after more than three; the range [15, 900] is kept |
| Cooldown.RunStaysInRange | anagram_bot.py:348-370 | any sequence of outcomes keeps the cooldown in [15, 900] |
| Cooldown.FourTimeouts | anagram_bot.py:359-369 | 180 → 216 → 259 → 310 → 900 over four timeouts |
| Cooldown.LeavingSleepMode | anagram_bot.py:349-358 | from 900 a correct answer gives 90 and a timeout 216 with three misses |
| Cooldown.FloorIsAbsorbing | anagram_bot.py:352-358 | halving stops at 15 |
| Cooldown.CooldownManager.constructor | anagram_bot.py:341-346 | empty maps (every server at 180, 0 misses) |
| Cooldown.CooldownManager.AdjustCooldown | anagram_bot.py:348-370 | the server's pace becomes `Adjusted` of the old one, the result is the new cooldown in [15, 900], and other servers are unchanged |
| Game.AnagramGame.constructor | anagram_bot.py:153-186 | empty per-server tables and the five corpus tiers |
| Game.AnagramGame.CheckGuess | anagram_bot.py:251-322 | no round: nothing; empty guess: IndexError, nothing changed; wrong guess: `check_hints` on the lowered guess with 20 points for partial credit; correct guess: race, then streak, powerup, points and acumen queue, or ignored with only the race window changed |
| Game.AnagramGame.CheckWrongGuess | anagram_bot.py:282-292 | the round records the credited word, and the outcome is `check_hints`'s |
| Game.AnagramGame.CheckCorrectGuess | anagram_bot.py:261-320 | the race window is joined; an ignored answer changes nothing else; a scored one updates streak, powerups and acumen queue as specified |
| Game.AnagramGame.JoinRace | anagram_bot.py:262-280 | the server's window becomes the joined window, and the multiplier is the race rule's |
| Game.AnagramGame.ScoreTurn | anagram_bot.py:295-313 | streak, powerup spend and turn points as the scoring functions say; total = stored + turn |
| Game.AnagramGame.EnqueueAcumen | anagram_bot.py:319 | the server's acumen queue admits the entry |
| Game.AnagramGame.UsePowerup | anagram_bot.py:324-338 | no record: "play first"; used today: refused; else the counter is set to 3; nothing else changes |
| Game.AnagramGame.ChosenLevel | anagram_bot.py:213-214 | the tier drawn from the acumen queue is in 1..5 |
| Game.AnagramGame.GenerateAnagram | anagram_bot.py:212-238 | an empty tier fails and leaves the state; otherwise a fresh round is set up for the chosen word |
| Game.AnagramGame.StartRound | anagram_bot.py:216-237 | the round has the word, an acceptable anagram, both hints (the definition as hint 2 at tier 5), bomb on a roll of 1, flags cleared, no alternative word credited |
| Game.GetOr | anagram_bot.py:155-161 | a `defaultdict` read: the stored value, or the default |
| Game.SpentPowerups | anagram_bot.py:306-308 | one use is spent when some remain, else the table is unchanged |
| Game.AdmittedInRange | anagram_bot.py:317-319 | the queue stays bounded with acumens in [1, 100] |
| Game.NonEmptyWhenShuffled | anagram_bot.py:199-203 | an acceptable anagram contains the word's first and last letters, so `remove` cannot fail |
| Bot.MaxLifetime | main.py:66-69 | 30 s for a bomb, 240 s otherwise, and `cooldown - 60` above 240 for both |
| Bot.LifetimeDip | main.py:66-69 | between 241 and 299 the lifetime is below 240, e.g. 199 at 259 |
| Bot.Decide | main.py:72-88 | time up exactly at the lifetime; else hint 1 when unsent at 15 s (bomb) or 30 s; hint 2 when unsent, not a bomb and at 120 s |
| Bot.TickDecision | main.py:64-75 | time up exactly when the round's age reaches its lifetime at the server's current cooldown |
| Bot.HintsBeforeExpiry | main.py:66-88 | for any cooldown in range both hints fall before the round ends; a bomb never gets hint 2 |
| Bot.DefaultRoundTicks | main.py:64-88 | at 29 s nothing, at 130 s both hints, at 240 s time up |
| Bot.AnnouncedWait | main.py:76 | 60 s in sleep mode, else the cooldown |
| Bot.TicksAsWritten | main.py:72-80 | as written, every tick past the lifetime adjusts the cooldown again: from a cooldown in range, `n` ticks each at least 840 s old equal `n` missed rounds (`Run` over `n` misses); the cooldown stays in [15, 900], and ticks before the lifetime change nothing |
| Bot.ReachedLater | main.py:72-80 | a first tick short of the lifetime leaves whether the lifetime is reached to the remaining ticks |
| Bot.TicksCorrected | main.py:72-80 | a round's ticks adjust the cooldown once for a miss exactly when some tick reaches the lifetime, and leave it unchanged exactly when none does |
| Bot.TimeoutRepeatsAsWritten | main.py:74 | six ticks after the lifetime reach sleep mode as written, against 216 corrected |
| Bot.WinnersAsWritten | main.py:171-174 | as written, `n` winners of one round equal `n` answered rounds (`Run` over `n` correct outcomes); the cooldown stays in [15, 900], misses are cleared, and it never rises |
| Bot.WinnersCorrected | main.py:171-185 | winners tested against `cooldown_adjusted` in turn: if the flag starts unset, any positive number of winners halves the cooldown exactly once; if it starts set, nothing changes |
| Bot.SecondWinnerHalvesAgain | main.py:172-174 | two winners give 45 as written, against 90 corrected |
| Bot.Runs | main.py:125 | never more tokens than characters |
| Bot.TokenCount | main.py:125 | never more tokens than characters, and none exactly when the message is all whitespace |
| Bot.NoTokensIffSpaces | main.py:125 | no run of non-space characters exactly when every character is whitespace |
| Bot.SpacesCountNothing | main.py:125 | whitespace holds no token |
| Bot.SkipLeadingSpaces | main.py:125 | leading whitespace does not change the token count |
| Bot.InsideToken | main.py:125 | a run without whitespace continues the current token |
| Bot.OneWordIsOneToken | main.py:125 | a word padded with whitespace is one token |
| Bot.TwoWordsAreTwoTokens | main.py:125 | two words separated by whitespace are two tokens |
| Bot.AlphaOnly | main.py:128 | only letters are kept, drawn from the message |
| Bot.AlphaOnlyKeepsLetters | main.py:128 | a word of letters passes unchanged |
| Bot.AlphaOnlyConcat | main.py:128 | filtering distributes over concatenation |
| Bot.AlphaOnlyDropsOthers | main.py:128 | a string without letters filters to nothing |
| Bot.AlphaOnlyIdempotent | main.py:128 | filtering twice is filtering once |
| Bot.RouteMessage | main.py:109-129 | `;` messages are commands; a guess is exactly a one-token non-command, and its word is the letters of the message |
| Bot.DigitsGiveEmptyGuess | main.py:125-128 | a number routes to an empty guess |
| Bot.WordWithPunctuation | main.py:125-128 | "word!" padded with spaces routes to the guess "word" |
| Bot.LettersSurvive | main.py:128 | the letters of a word survive the surrounding punctuation |
| Bot.SentenceIgnored | main.py:125 | "the plane" is not a guess |
| Bot.EmojiFor | main.py:140-149 | 'a'..'z' map in order onto U+1F1E6..U+1F1FF; anything else is '❓' |
| Bot.EmojiMapping | main.py:140-149 | letters get distinct regional indicators, never the fallback |
| Bot.Dispatch | main.py:131-153 | nothing for no round, an ignored answer or no hint; a reply for partial credit or the typo hint; a reaction for a letter; a crash for the IndexErrors |
| Bot.Bouquets | main.py:164 | one celebration per started 300 points |
| Bot.BouquetsMonotone | main.py:164 | more points never give fewer celebrations |
| Bot.AnagramState.constructor | main.py:29-36 | the state holds the game and the cooldown manager |
| Bot.AnagramState.Expire | main.py:72-79 | with the `await` at line 74 removed: one missed round for the cooldown, stored in `cooldown_times`, streak cleared, announced wait; rounds, windows, powerups and queues unchanged |
| Bot.AnagramState.TickOne | main.py:62-88 | with the `await` at line 74 removed: the decision for the server's round and pace; on time up the server's pace takes one miss, the new cooldown is stored in `cooldown_times` and its streak clears, otherwise nothing changes; windows, powerups and queues never change |
| Bot.AnagramState.Tick | main.py:50-93 | with the `await` at line 74 removed: every server with a round gets the decision for its round and its pace at the start of the tick; exactly the expired servers take one miss, have the new cooldown stored in `cooldown_times` and lose their streak; windows, powerups and queues never change |
| Bot.TickStep | main.py:52-88 | one more server's decision and expiry keep the tick's invariant |
| Bot.StoreStep | main.py:74-75 | one more server's decision keeps `cooldown_times` holding exactly the expired servers' new cooldowns |
| Bot.AnagramState.SettleCooldown | main.py:171-186 | with the `await` at line 172 removed: the first winner of a round halves the cooldown, stores it and sets the flag; later winners read `cooldown_times` (100 if never set) and change nothing |
| Bot.AnagramState.SettleTwice | main.py:171-185 | two winners of one round in a row: the cooldown is halved once if the flag was unset and left alone if it was set, both winners are told the same wait, and the flag ends set |

## Left out

- The database handler: stored points and acumen are parameters. The writes of new totals are not modelled.
- The clock and the calendar date comparison of `use_powerup`. They become the parameters `now`, `guessTime`, `recordExists` and `usedToday`.
- `math.exp` in the acumen update. It is an abstract parameter `shift` (a function of the elapsed time). Only the truncation and the [1, 100] clamp are modelled.
- Float arithmetic is modelled with exact reals. `int(c * 1.2)` truncates the exact product, which agrees with the double result for the integer cooldowns that occur.
- Randomness is oracle parameters, with no distribution.
- Discord I/O: replies, reactions, embeds, the leaderboard command's query, `asyncio.sleep`, `tasks.loop`, the locks and the bare `except` recovery of channels.
- `send_hint`, `transition_to_new_game` and `acquire_lock` are not part of this model. `Bot.AnagramState.Tick` returns the decisions instead of sending hints or starting the next round.
- The leaderboard and `;daily` commands are routed (`Bot.RouteMessage`) but their replies are not modelled beyond `Game.AnagramGame.UsePowerup`.
- File loading of the word list and the alternative-word set. They are constructor parameters.
- Hints.WordShuffle: the source loops until an acceptable arrangement appears and never returns for a word without one. The model stops when the supplied draws run out (`ShuffleUnfinished`); `Hints.NoShuffleForRepeatedLetter` names the words for which the source loops forever.
- `AnagramGame.acumen_queues` holds `AcumenQueue` objects. `Game.AnagramGame` holds each queue as a `seq` value and applies the same `Acumen.Admitted` that `Acumen.AcumenQueue.AddUserMessage` applies, so aliasing between queues is not modelled.
- Character classes (`isalpha`, `isupper`, `lower`, `split`) are ASCII only; Unicode letters and whitespace are not modelled.
- Bot.RouteMessage: `main.py` never assigns `msg`, which lines 109, 110, 121, 125 and 128 read, so as written line 109 raises NameError on every message. The model reads `msg` as the message text with its case kept. That choice decides whether the capital-letter check `guess[0].isupper()` at anagram_bot.py:255 can ever see a capital; reading it lower-cased would make that branch dead.
- Bot.AnagramState: the class models `main.py` with the `await` removed from lines 74 and 172, the flow the code evidently intends (see Findings). The flow as written, where that `await` raises TypeError, is `Bot.TicksAsWritten` and `Bot.WinnersAsWritten`.
- Bot.AnagramState.Tick: the ticks of different servers run one after another in the model; the interleaving with message handling through `await` is not modelled.

## Findings

| source | as written | input that shows it | evidently intended | confidence | as-written member | corrected member |
|---|---|---|---|---|---|---|
| anagram_bot.py:242 | `other_answers` is created as `{}` (a dict, line 235), and `.add(guess)` raises AttributeError, so `check_guess` never returns the partial credit | any wrong guess that is in the alternative-word list | record the word in a set and award 20 points once per round | not executed | Scoring.CheckHintsAsWritten | Scoring.CheckHints |
| main.py:74 | `adjust_cooldown` is a plain function, so `await` on its integer result raises TypeError after the cooldown has been adjusted; the bare `except` swallows it, the round is never replaced, and every later tick adjusts again | a round left unanswered for 240 s and then ticked every 2 s | one timeout adjustment per round, then a new round | not executed | Bot.TicksAsWritten | Bot.TicksCorrected |
| main.py:172 | the same `await` raises TypeError after halving the cooldown but before the `cooldown_adjusted` flag is set (line 174), so each later winner of the round halves it again | two winners of the same round from a cooldown of 180, provided `acquire_lock` grants the lock that the first winner took at line 157 and never released (lines 178-179 are skipped, and the `except` at line 194 releases nothing) | halve once per round, then read `cooldown_times` | not executed | Bot.WinnersAsWritten | Bot.WinnersCorrected |
