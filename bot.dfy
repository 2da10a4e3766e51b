/** The round timing and message handling of the bot's event loop (main.py):
    the per-tick decision of `anagram_loop`, the routing and rendering rules
    of `on_message`, and the once-per-round cooldown guard. */
module Bot {
  import opened Common
  import opened Cooldown
  import opened Scoring
  import opened Game

  // ---------------------------------------------------------------------
  // Round lifetime and hints (`anagram_loop`)

  const BombLifetime: int := 30
  const RoundLifetime: int := 240
  /** A cooldown above the default lifetime shortens the round to
      `cooldown - 60`. */
  const LifetimeMargin: int := 60
  const BombHint1After: real := 15.0
  const Hint1After: real := 30.0
  const Hint2After: real := 120.0
  /** What is announced instead of the 900 s sleep-mode cooldown. */
  const SleepAnnouncedWait: int := 60

  /** `max_time`: 30 s for bomb rounds, 240 s otherwise, and `cooldown - 60`
      for either kind once the cooldown exceeds 240. */
  function MaxLifetime(isBomb: bool, cooldown: int): (t: int)
    ensures cooldown <= RoundLifetime ==> t == (if isBomb then BombLifetime else RoundLifetime)
    ensures RoundLifetime < cooldown ==> t + LifetimeMargin == cooldown
    ensures InRange(cooldown) ==> BombLifetime <= t <= MaxCooldown - LifetimeMargin
  {
    if RoundLifetime < cooldown then cooldown - LifetimeMargin
    else if isBomb then BombLifetime else RoundLifetime
  }

  /** A cooldown just above 240 gives a normal round less time than the
      default: 259 (the second timeout in a row) leaves 199 s. Bomb rounds,
      meanwhile, stretch to the same length. */
  lemma LifetimeDip(c: int)
    requires RoundLifetime < c < RoundLifetime + LifetimeMargin
    ensures MaxLifetime(false, c) < RoundLifetime
    ensures MaxLifetime(true, c) == MaxLifetime(false, c)
    ensures MaxLifetime(false, 259) == 199
  {
  }

  /** What one tick does to a round. */
  datatype TickAction = TimeUp | Continue(hint1: bool, hint2: bool)

  /** Lines 66-88: expire once the lifetime is reached (and then send
      nothing), otherwise send each hint whose time has come and that has
      not been sent; both can go out on the same tick. */
  function Decide(isBomb: bool, elapsed: real, cooldown: int, hint1Sent: bool, hint2Sent: bool): (a: TickAction)
    ensures a == TimeUp <==> MaxLifetime(isBomb, cooldown) as real <= elapsed
    ensures a.Continue? ==> (a.hint1 <==> !hint1Sent && (if isBomb then BombHint1After else Hint1After) <= elapsed)
    ensures a.Continue? ==> (a.hint2 <==> !hint2Sent && !isBomb && Hint2After <= elapsed)
  {
    if MaxLifetime(isBomb, cooldown) as real <= elapsed then TimeUp
    else Continue(!hint1Sent && (if isBomb then BombHint1After else Hint1After) <= elapsed,
                  !hint2Sent && !isBomb && Hint2After <= elapsed)
  }

  function TickDecision(round: Round, now: real, cooldown: int): (a: TickAction)
    ensures a == TimeUp <==> MaxLifetime(round.isBomb, cooldown) as real <= now - round.startTime
  {
    Decide(round.isBomb, now - round.startTime, cooldown, round.hint1Sent, round.hint2Sent)
  }

  /** Whatever the cooldown in [15, 900], each hint's time comes strictly
      before the round's end, so a tick can send it; a bomb round never
      gets the second hint. */
  lemma HintsBeforeExpiry(c: int, elapsed: real, h1: bool, h2: bool)
    requires InRange(c)
    ensures BombHint1After < MaxLifetime(true, c) as real
    ensures Hint2After < MaxLifetime(false, c) as real
    ensures Decide(true, elapsed, c, h1, h2).Continue? ==> !Decide(true, elapsed, c, h1, h2).hint2
  {
  }

  /** A normal round at the default cooldown with no hint sent yet: at
      130 s both hints go out on one tick; at 240 s it expires. */
  lemma DefaultRoundTicks()
    ensures Decide(false, 29.0, BaseCooldown, false, false) == Continue(false, false)
    ensures Decide(false, 130.0, BaseCooldown, false, false) == Continue(true, true)
    ensures Decide(false, 240.0, BaseCooldown, true, true) == TimeUp
  {
  }

  /** Lines 75-76: the wait announced after a timeout. */
  function AnnouncedWait(cooldown: int): (w: int)
    ensures cooldown == MaxCooldown ==> w == SleepAnnouncedWait
    ensures cooldown != MaxCooldown ==> w == cooldown
  {
    if cooldown == MaxCooldown then SleepAnnouncedWait else cooldown
  }

  // ---------------------------------------------------------------------
  // What happens to a round's timeouts as written (main.py line 74)

  /** Ticks of one round as written: `adjust_cooldown` is a plain function,
      so `await` on its integer result raises TypeError after the cooldown
      has changed; the bare `except` swallows it, the round is never
      replaced, and every later tick past the lifetime adjusts again. */
  function TicksAsWritten(p: Pace, isBomb: bool, elapsed: seq<real>): (r: Pace)
    ensures InRange(p.cooldown) ==> InRange(r.cooldown)
    ensures (forall k :: 0 <= k < |elapsed| ==> elapsed[k] < MaxLifetime(isBomb, p.cooldown) as real) ==> r == p
    // Past the longest lifetime in range, every tick counts another timeout.
    ensures InRange(p.cooldown) && (forall k :: 0 <= k < |elapsed| ==> (MaxCooldown - LifetimeMargin) as real <= elapsed[k]) ==>
              r == Run(p, seq(|elapsed|, _ => false))
    decreases |elapsed|
  {
    if elapsed == [] then p
    else if MaxLifetime(isBomb, p.cooldown) as real <= elapsed[0] then
      assert seq(|elapsed|, _ => false)[1..] == seq(|elapsed| - 1, _ => false);
      TicksAsWritten(Adjusted(p, false), isBomb, elapsed[1..])
    else TicksAsWritten(p, isBomb, elapsed[1..])
  }

  /** Some tick has reached the lifetime `life`. */
  predicate Reached(life: real, elapsed: seq<real>) {
    exists k :: 0 <= k < |elapsed| && life <= elapsed[k]
  }

  /** The same ticks once the timeout completes: the first tick past the
      lifetime adjusts once and ends the round. */
  function TicksCorrected(p: Pace, isBomb: bool, elapsed: seq<real>): (r: Pace)
    ensures r == p || r == Adjusted(p, false)
    ensures Reached(MaxLifetime(isBomb, p.cooldown) as real, elapsed) ==> r == Adjusted(p, false)
    ensures !Reached(MaxLifetime(isBomb, p.cooldown) as real, elapsed) ==> r == p
    decreases |elapsed|
  {
    if elapsed == [] then p
    else if MaxLifetime(isBomb, p.cooldown) as real <= elapsed[0] then
      assert Reached(MaxLifetime(isBomb, p.cooldown) as real, elapsed) by {
        assert MaxLifetime(isBomb, p.cooldown) as real <= elapsed[0];
      }
      Adjusted(p, false)
    else
      ReachedLater(MaxLifetime(isBomb, p.cooldown) as real, elapsed);
      TicksCorrected(p, isBomb, elapsed[1..])
  }

  /** A first tick short of the lifetime leaves the question to the rest. */
  lemma ReachedLater(life: real, elapsed: seq<real>)
    requires elapsed != [] && elapsed[0] < life
    ensures Reached(life, elapsed) <==> Reached(life, elapsed[1..])
  {
    if Reached(life, elapsed) {
      var k :| 0 <= k < |elapsed| && life <= elapsed[k];
      assert elapsed[1..][k - 1] == elapsed[k];
    }
    if Reached(life, elapsed[1..]) {
      var k :| 0 <= k < |elapsed[1..]| && life <= elapsed[1..][k];
      assert elapsed[k + 1] == elapsed[1..][k];
    }
  }

  /** A fresh server whose first round goes unanswered: ticks every 2 s from
      240 s drive it to sleep mode (900 s, four misses) within 10 s as
      written, instead of the single step to 216 s. */
  lemma TimeoutRepeatsAsWritten()
    ensures TicksAsWritten(Pace(BaseCooldown, 0), false, [240.0, 242.0, 244.0, 246.0, 248.0, 250.0]) == Pace(MaxCooldown, 4)
    ensures TicksCorrected(Pace(BaseCooldown, 0), false, [240.0, 242.0, 244.0, 246.0, 248.0, 250.0]) == Pace(216, 1)
  {
    var ticks := [240.0, 242.0, 244.0, 246.0, 248.0, 250.0];
    assert ticks[1..] == [242.0, 244.0, 246.0, 248.0, 250.0];
    assert ticks[1..][1..] == [244.0, 246.0, 248.0, 250.0];
    assert ticks[1..][1..][1..] == [246.0, 248.0, 250.0];
    assert ticks[1..][1..][1..][1..] == [248.0, 250.0];
    assert ticks[1..][1..][1..][1..][1..] == [250.0];
    FourTimeouts();
  }

  // ---------------------------------------------------------------------
  // The cooldown guard for winners (main.py line 172)

  /** `n` winners of one round as written: the `await` on the synchronous
      `adjust_cooldown` raises after each halving, before the
      `cooldown_adjusted` flag is set, so every winner halves it again. */
  function WinnersAsWritten(p: Pace, n: nat): (r: Pace)
    ensures InRange(p.cooldown) ==> InRange(r.cooldown)
    ensures n > 0 ==> r.misses == 0
    ensures n > 0 && MinCooldown <= p.cooldown < MaxCooldown ==> r.cooldown <= p.cooldown
    // Each winner counts as one more answered round.
    ensures r == Run(p, seq(n, _ => true))
    decreases n
  {
    if n == 0 then p
    else
      assert seq(n, _ => true)[1..] == seq(n - 1, _ => true);
      WinnersAsWritten(Adjusted(p, true), n - 1)
  }

  /** `n` winners of one round with the guard working: each one reaching
      line 171 tests `cooldown_adjusted`; the first to find it unset halves
      the cooldown and sets it, the others leave the pace alone. */
  function WinnersCorrected(p: Pace, adjusted: bool, n: nat): (r: Pace)
    ensures n > 0 && !adjusted ==> r == Adjusted(p, true)
    ensures n == 0 || adjusted ==> r == p
    decreases n
  {
    if n == 0 then p
    else if adjusted then WinnersCorrected(p, true, n - 1)
    else WinnersCorrected(Adjusted(p, true), true, n - 1)
  }

  /** Two winners at the default cooldown: 45 s as written, 90 s with the
      guard. */
  lemma SecondWinnerHalvesAgain()
    ensures WinnersAsWritten(Pace(BaseCooldown, 0), 2) == Pace(45, 0)
    ensures WinnersCorrected(Pace(BaseCooldown, 0), false, 2) == Pace(90, 0)
  {
  }

  // ---------------------------------------------------------------------
  // Message routing (`on_message`)

  /** The number of whitespace-separated tokens, as `len(msg.strip().split())`
      counts them: the runs of non-space characters. */
  function Runs(s: string, inToken: bool): (r: nat)
    ensures r <= |s|
    decreases |s|
  {
    if s == [] then 0
    else if IsSpace(s[0]) then Runs(s[1..], false)
    else (if inToken then 0 else 1) + Runs(s[1..], true)
  }

  function TokenCount(s: string): (r: nat)
    ensures r <= |s|
    ensures r == 0 <==> AllSpace(s)
  {
    NoTokensIffSpaces(s);
    Runs(s, false)
  }

  lemma {:induction false} NoTokensIffSpaces(s: string)
    ensures Runs(s, false) == 0 <==> AllSpace(s)
    decreases |s|
  {
    if s != [] {
      NoTokensIffSpaces(s[1..]);
      if IsSpace(s[0]) {
        assert AllSpace(s) <==> AllSpace(s[1..]);
      } else {
        assert !AllSpace(s);
      }
    }
  }

  predicate AllSpace(s: string) {
    forall i :: 0 <= i < |s| ==> IsSpace(s[i])
  }

  predicate NoSpace(s: string) {
    forall i :: 0 <= i < |s| ==> !IsSpace(s[i])
  }

  lemma {:induction false} SpacesCountNothing(s: string, inToken: bool)
    requires AllSpace(s)
    ensures Runs(s, inToken) == 0
    decreases |s|
  {
    if s != [] {
      SpacesCountNothing(s[1..], false);
    }
  }

  lemma {:induction false} SkipLeadingSpaces(p: string, s: string, inToken: bool)
    requires AllSpace(p) && p != []
    ensures Runs(p + s, inToken) == Runs(s, false)
    decreases |p|
  {
    assert (p + s)[1..] == p[1..] + s;
    if |p| > 1 {
      SkipLeadingSpaces(p[1..], s, false);
    }
  }

  lemma {:induction false} InsideToken(w: string, q: string)
    requires NoSpace(w)
    ensures Runs(w + q, true) == Runs(q, true)
    decreases |w|
  {
    if w != [] {
      assert (w + q)[0] == w[0] && !IsSpace(w[0]);
      assert (w + q)[1..] == w[1..] + q;
      InsideToken(w[1..], q);
    } else {
      assert w + q == q;
    }
  }

  /** A word with only whitespace around it is one token, so it is taken as
      a guess. */
  lemma OneWordIsOneToken(p: string, w: string, q: string)
    requires AllSpace(p) && AllSpace(q) && NoSpace(w) && w != []
    ensures TokenCount(p + w + q) == 1
  {
    assert p + w + q == p + (w + q);
    if p != [] {
      SkipLeadingSpaces(p, w + q, false);
    } else {
      assert p + (w + q) == w + q;
    }
    assert (w + q)[0] == w[0] && !IsSpace(w[0]);
    assert (w + q)[1..] == w[1..] + q;
    InsideToken(w[1..], q);
    SpacesCountNothing(q, true);
  }

  /** Two words separated by whitespace are two tokens, so a sentence is
      never taken as a guess. */
  lemma TwoWordsAreTwoTokens(w1: string, sep: string, w2: string)
    requires NoSpace(w1) && NoSpace(w2) && AllSpace(sep) && w1 != [] && w2 != [] && sep != []
    ensures TokenCount(w1 + sep + w2) == 2
  {
    assert w1 + sep + w2 == w1 + (sep + w2);
    assert (w1 + (sep + w2))[1..] == w1[1..] + (sep + w2);
    InsideToken(w1[1..], sep + w2);
    SkipLeadingSpaces(sep, w2, true);
    assert (w2 + [])[1..] == w2[1..] + [];
    InsideToken(w2[1..], []);
    assert w2 + [] == w2;
    assert w2[1..] + [] == w2[1..];
  }

  /** `''.join(filter(str.isalpha, msg))` */
  function AlphaOnly(s: string): (r: string)
    ensures |r| <= |s|
    ensures forall i :: 0 <= i < |r| ==> IsAlpha(r[i])
    ensures multiset(r) <= multiset(s)
  {
    if s == [] then []
    else
      assert s == [s[0]] + s[1..];
      (if IsAlpha(s[0]) then [s[0]] else []) + AlphaOnly(s[1..])
  }

  /** Letters pass through unchanged, so filtering twice changes nothing. */
  lemma {:induction false} AlphaOnlyKeepsLetters(s: string)
    requires forall i :: 0 <= i < |s| ==> IsAlpha(s[i])
    ensures AlphaOnly(s) == s
    decreases |s|
  {
    if s != [] {
      AlphaOnlyKeepsLetters(s[1..]);
    }
  }

  /** The filter works character by character: it distributes over
      concatenation. */
  lemma {:induction false} AlphaOnlyConcat(a: string, b: string)
    ensures AlphaOnly(a + b) == AlphaOnly(a) + AlphaOnly(b)
    decreases |a|
  {
    if a == [] {
      assert a + b == b;
    } else {
      assert (a + b)[0] == a[0] && (a + b)[1..] == a[1..] + b;
      AlphaOnlyConcat(a[1..], b);
    }
  }

  lemma {:induction false} AlphaOnlyDropsOthers(s: string)
    requires forall i :: 0 <= i < |s| ==> !IsAlpha(s[i])
    ensures AlphaOnly(s) == []
    decreases |s|
  {
    if s != [] {
      AlphaOnlyDropsOthers(s[1..]);
    }
  }

  lemma AlphaOnlyIdempotent(s: string)
    ensures AlphaOnly(AlphaOnly(s)) == AlphaOnly(s)
  {
    AlphaOnlyKeepsLetters(AlphaOnly(s));
  }

  datatype Route =
    | Leaderboard        // `;top`
    | Daily              // `;daily`
    | OtherCommand       // any other message starting with `;`
    | Guess(word: string)
    | NotAGuess          // more than one token, or none

  /** Lines 109-129: commands start with `;`; any other single-token message
      is a guess with its non-letters removed. */
  function RouteMessage(msg: string): (r: Route)
    ensures |msg| > 0 && msg[0] == ';' ==> r.Leaderboard? || r.Daily? || r.OtherCommand?
    ensures r.Guess? <==> (|msg| == 0 || msg[0] != ';') && TokenCount(msg) == 1
    ensures r.Guess? ==> r.word == AlphaOnly(msg)
  {
    if |msg| > 0 && msg[0] == ';' then
      if msg == ";top" then Leaderboard else if msg == ";daily" then Daily else OtherCommand
    else if TokenCount(msg) == 1 then Guess(AlphaOnly(msg))
    else NotAGuess
  }

  /** A single token of digits reaches `check_guess` as the empty string,
      where `guess[0]` fails. */
  lemma DigitsGiveEmptyGuess(d: string)
    requires d != [] && forall i :: 0 <= i < |d| ==> '0' <= d[i] <= '9'
    ensures RouteMessage(d) == Guess("")
  {
    OneWordIsOneToken([], d, []);
    assert [] + d + [] == d;
    AlphaOnlyDropsOthers(d);
  }

  /** A word with punctuation after it and whitespace around it (" plane! ")
      is the guess made of the word's letters alone ("plane"). */
  lemma WordWithPunctuation(p: string, w: string, t: string, q: string)
    requires AllSpace(p) && AllSpace(q) && w != []
    requires forall i :: 0 <= i < |w| ==> IsAlpha(w[i])
    requires forall i :: 0 <= i < |t| ==> !IsAlpha(t[i]) && !IsSpace(t[i])
    ensures RouteMessage(p + w + t + q) == Guess(w)
  {
    var msg := p + w + t + q;
    assert msg == p + (w + t) + q;
    assert NoSpace(w + t) by {
      forall i | 0 <= i < |w + t|
        ensures !IsSpace((w + t)[i])
      {
        if i < |w| {
          assert (w + t)[i] == w[i];
        } else {
          assert (w + t)[i] == t[i - |w|];
        }
      }
    }
    OneWordIsOneToken(p, w + t, q);
    assert msg[0] != ';' by {
      if p != [] {
        assert msg[0] == p[0];
      } else {
        assert msg[0] == w[0];
      }
    }
    LettersSurvive(p, w, t, q);
  }

  lemma LettersSurvive(p: string, w: string, t: string, q: string)
    requires forall i :: 0 <= i < |p| ==> !IsAlpha(p[i])
    requires forall i :: 0 <= i < |q| ==> !IsAlpha(q[i])
    requires forall i :: 0 <= i < |t| ==> !IsAlpha(t[i])
    requires forall i :: 0 <= i < |w| ==> IsAlpha(w[i])
    ensures AlphaOnly(p + w + t + q) == w
  {
    AlphaOnlyDropsOthers(p);
    AlphaOnlyDropsOthers(q);
    AlphaOnlyDropsOthers(t);
    AlphaOnlyKeepsLetters(w);
    AlphaOnlyConcat(p, w);
    assert AlphaOnly(p + w) == w;
    AlphaOnlyConcat(p + w, t);
    assert AlphaOnly(p + w + t) == w + [];
    AlphaOnlyConcat(p + w + t, q);
    assert AlphaOnly(p + w + t + q) == w + [] + [];
  }

  /** "the plane" is two tokens, so it is not a guess. */
  lemma SentenceIgnored()
    ensures RouteMessage("the plane") == NotAGuess
  {
    TwoWordsAreTwoTokens("the", " ", "plane");
    assert "the" + " " + "plane" == "the plane";
  }

  // ---------------------------------------------------------------------
  // Rendering the outcome

  /** Regional indicator symbol letter A. */
  const RegionalA: int := 0x1F1E6
  /** '❓', the fallback reaction. */
  const Unknown: char := '\U{2753}'

  /** `emoji_map.get(hint, '❓')` */
  function EmojiFor(c: char): (e: char)
    ensures 'a' <= c <= 'z' ==> e as int == RegionalA + (c as int - 'a' as int)
    ensures !('a' <= c <= 'z') ==> e == Unknown
  {
    if 'a' <= c <= 'z' then (RegionalA + (c as int - 'a' as int)) as char else Unknown
  }

  /** 'a' to 'z' map one-to-one onto U+1F1E6 to U+1F1FF, never onto '❓'. */
  lemma EmojiMapping(c: char, d: char)
    ensures 'a' <= c <= 'z' ==> 0x1F1E6 <= EmojiFor(c) as int <= 0x1F1FF && EmojiFor(c) != Unknown
    ensures 'a' <= c <= 'z' && 'a' <= d <= 'z' && EmojiFor(c) == EmojiFor(d) ==> c == d
    ensures EmojiFor('a') as int == 0x1F1E6 && EmojiFor('z') as int == 0x1F1FF
  {
  }

  datatype Response =
    | Silent
    | Reply(text: string)
    | React(emoji: char)
    | Crash                       // the exception escapes `on_message`; nothing is sent

  const PartialCreditMessage: string := "You got 20 points for finding anagram but not exact answer. Think again"
  const TypoMessage: string := "Please check typos"

  /** Lines 131-153 for every outcome but a score: `None` is ignored, a
      partial credit or a typo hint is replied, a letter is reacted. */
  function Dispatch(o: GuessOutcome): (r: Response)
    requires !o.Scored?
    ensures o.NoRound? || o.Ignored? || o == Hint(NoHint) ==> r == Silent
    ensures o.EmptyGuess? || o == Hint(HintIndexError) ==> r == Crash
    ensures o.Partial? ==> r == Reply(PartialCreditMessage)
    ensures o.Hint? && o.outcome.LetterHint? ==> r == React(EmojiFor(o.outcome.letter))
    ensures o == Hint(TypoHint) ==> r == Reply(TypoMessage)
  {
    match o
    case NoRound => Silent
    case Ignored => Silent
    case EmptyGuess => Crash
    case Partial(_) => Reply(PartialCreditMessage)
    case Hint(h) =>
      match h
      case LetterHint(c) => React(EmojiFor(c))
      case TypoHint => Reply(TypoMessage)
      case NoHint => Silent
      case HintIndexError => Crash
      // `check_guess` turns partial credit into `Partial`, so this case
      // never reaches the handler; it is answered as `Partial` would be.
      case PartialCredit => Reply(PartialCreditMessage)
  }

  /** `turn_points // 300 + 1` party emojis, after `int(turn_points)`. */
  function Bouquets(turn: real): (n: int)
    ensures 0.0 <= turn ==> 1 <= n && 300 * (n - 1) <= Trunc(turn) < 300 * n
  {
    Trunc(turn) / 300 + 1
  }

  lemma BouquetsMonotone(x: real, y: real)
    requires 0.0 <= x <= y
    ensures Bouquets(x) <= Bouquets(y)
    ensures Bouquets(299.5) == 1 && Bouquets(300.0) == 2 && Bouquets(600.0) == 3
  {
    TruncMonotone(x, y);
  }

  // ---------------------------------------------------------------------
  // The bot's state: the game and the global cooldown manager

  class AnagramState {
    const game: AnagramGame
    const manager: CooldownManager

    ghost predicate Valid()
      reads this, game, manager
    {
      game.Valid() && manager.Valid()
    }

    constructor (game: AnagramGame, manager: CooldownManager)
      requires game.Valid() && manager.Valid()
      ensures Valid() && this.game == game && this.manager == manager
    {
      this.game := game;
      this.manager := manager;
    }

    /** The timeout branch (lines 72-80): one miss for the cooldown, stored
        in `cooldown_times`, the streak reset, and the wait announced. */
    method Expire(server: ServerId) returns (wait: int)
      requires Valid()
      modifies game, manager
      ensures Valid()
      ensures manager.PaceOf(server) == Adjusted(old(manager.PaceOf(server)), false)
      ensures manager.cooldowns == old(manager.cooldowns)[server := manager.PaceOf(server).cooldown]
      ensures manager.missCounts == old(manager.missCounts)[server := manager.PaceOf(server).misses]
      ensures game.cooldownTimes == old(game.cooldownTimes)[server := manager.PaceOf(server).cooldown]
      ensures game.streaks == old(game.streaks)[server := NoStreak]
      ensures wait == AnnouncedWait(manager.PaceOf(server).cooldown)
      ensures game.gameState == old(game.gameState) && game.recentAnswers == old(game.recentAnswers)
      ensures game.powerups == old(game.powerups) && game.acumenQueues == old(game.acumenQueues)
    {
      var c := manager.AdjustCooldown(server, false);
      game.cooldownTimes := game.cooldownTimes[server := c];
      wait := AnnouncedWait(c);
      game.streaks := game.streaks[server := NoStreak];
    }

    /** One round of one server on a tick: decide, and expire the round
        when its time is up. */
    method TickOne(server: ServerId, now: real) returns (a: TickAction)
      requires Valid() && server in game.gameState
      modifies game, manager
      ensures Valid()
      ensures a == TickDecision(old(game.gameState[server]), now, PaceIn(old(manager.cooldowns), old(manager.missCounts), server).cooldown)
      ensures game.gameState == old(game.gameState)
      ensures a.TimeUp? ==>
                var p := Adjusted(PaceIn(old(manager.cooldowns), old(manager.missCounts), server), false);
                && manager.cooldowns == old(manager.cooldowns)[server := p.cooldown]
                && manager.missCounts == old(manager.missCounts)[server := p.misses]
                && game.streaks == old(game.streaks)[server := NoStreak]
                && game.cooldownTimes == old(game.cooldownTimes)[server := p.cooldown]
      ensures !a.TimeUp? ==> && manager.cooldowns == old(manager.cooldowns)
                             && manager.missCounts == old(manager.missCounts)
                             && game.streaks == old(game.streaks)
                             && game.cooldownTimes == old(game.cooldownTimes)
      ensures game.recentAnswers == old(game.recentAnswers) && game.powerups == old(game.powerups)
      ensures game.acumenQueues == old(game.acumenQueues)
    {
      a := TickDecision(game.gameState[server], now, manager.PaceOf(server).cooldown);
      if a.TimeUp? {
        var _ := Expire(server);
      }
    }

    /** One pass of `anagram_loop` at time `now`: every server with a round
        gets the decision for its elapsed time and current cooldown, and the
        rounds past their lifetime expire; nothing else changes. Sending
        hints is outside the model, so the decisions are returned. */
    method Tick(now: real) returns (actions: map<ServerId, TickAction>)
      requires Valid()
      modifies game, manager
      ensures Valid()
      ensures actions.Keys == old(game.gameState).Keys
      ensures game.gameState == old(game.gameState)
      ensures Decided(old(game.gameState), old(manager.cooldowns), old(manager.missCounts), now, actions)
      ensures Expired(old(manager.cooldowns), old(manager.missCounts), old(game.streaks),
                      manager.cooldowns, manager.missCounts, game.streaks, actions)
      ensures Stored(old(manager.cooldowns), old(manager.missCounts), old(game.cooldownTimes), game.cooldownTimes, actions)
      ensures game.recentAnswers == old(game.recentAnswers) && game.powerups == old(game.powerups)
      ensures game.acumenQueues == old(game.acumenQueues)
    {
      var todo := game.gameState.Keys;
      actions := map[];
      while todo != {}
        invariant Valid()
        invariant todo <= old(game.gameState).Keys
        invariant actions.Keys == old(game.gameState).Keys - todo
        invariant game.gameState == old(game.gameState)
        invariant Decided(old(game.gameState), old(manager.cooldowns), old(manager.missCounts), now, actions)
        invariant Expired(old(manager.cooldowns), old(manager.missCounts), old(game.streaks),
                          manager.cooldowns, manager.missCounts, game.streaks, actions)
        invariant Stored(old(manager.cooldowns), old(manager.missCounts), old(game.cooldownTimes), game.cooldownTimes, actions)
        invariant game.recentAnswers == old(game.recentAnswers) && game.powerups == old(game.powerups)
        invariant game.acumenQueues == old(game.acumenQueues)
        decreases |todo|
      {
        SomeMember(todo);
        var s :| s in todo;
        ghost var c, m, st, ct := manager.cooldowns, manager.missCounts, game.streaks, game.cooldownTimes;
        assert PaceIn(c, m, s) == PaceIn(old(manager.cooldowns), old(manager.missCounts), s) by {
          assert ExpiredAt(old(manager.cooldowns), old(manager.missCounts), old(game.streaks), c, m, st, actions, s);
        }
        var a := TickOne(s, now);
        TickStep(old(game.gameState), old(manager.cooldowns), old(manager.missCounts), old(game.streaks),
                 c, m, st, manager.cooldowns, manager.missCounts, game.streaks, now, actions, s, a);
        StoreStep(old(manager.cooldowns), old(manager.missCounts), old(game.cooldownTimes), ct, game.cooldownTimes,
                  actions, s, a);
        actions := actions[s := a];
        todo := todo - {s};
      }
    }

    /** Lines 171-185 for a winner: the first one of a round halves the
        cooldown, stores it and sets `cooldown_adjusted`; later ones read
        `cooldown_times` (100 when never set). */
    method SettleCooldown(server: ServerId) returns (wait: int)
      requires Valid() && server in game.gameState
      modifies game, manager
      ensures Valid()
      ensures old(game.gameState[server].cooldownAdjusted) ==>
                && wait == GetOr(old(game.cooldownTimes), server, DefaultCooldownTime)
                && manager.cooldowns == old(manager.cooldowns) && manager.missCounts == old(manager.missCounts)
                && game.gameState == old(game.gameState) && game.cooldownTimes == old(game.cooldownTimes)
      ensures !old(game.gameState[server].cooldownAdjusted) ==>
                && manager.PaceOf(server) == Adjusted(old(manager.PaceOf(server)), true)
                && manager.cooldowns == old(manager.cooldowns)[server := wait]
                && manager.missCounts == old(manager.missCounts)[server := 0]
                && wait == manager.PaceOf(server).cooldown
                && game.cooldownTimes == old(game.cooldownTimes)[server := wait]
                && game.gameState == old(game.gameState)[server := old(game.gameState[server]).(cooldownAdjusted := true)]
      ensures game.recentAnswers == old(game.recentAnswers) && game.streaks == old(game.streaks)
      ensures game.powerups == old(game.powerups) && game.acumenQueues == old(game.acumenQueues)
    {
      var round := game.gameState[server];
      if round.cooldownAdjusted {
        wait := GetOr(game.cooldownTimes, server, DefaultCooldownTime);
        return;
      }
      wait := manager.AdjustCooldown(server, true);
      game.cooldownTimes := game.cooldownTimes[server := wait];
      game.gameState := game.gameState[server := round.(cooldownAdjusted := true)];
    }

    /** Two winners of the same round: the second finds the flag the first
        set, so the cooldown is halved at most once and both are told the
        same wait. */
    method SettleTwice(server: ServerId) returns (first: int, second: int)
      requires Valid() && server in game.gameState
      modifies game, manager
      ensures Valid()
      ensures !old(game.gameState[server].cooldownAdjusted) ==>
                manager.PaceOf(server) == Adjusted(old(manager.PaceOf(server)), true)
      ensures old(game.gameState[server].cooldownAdjusted) ==>
                manager.PaceOf(server) == old(manager.PaceOf(server))
      ensures second == first
      ensures server in game.gameState && game.gameState[server].cooldownAdjusted
    {
      first := SettleCooldown(server);
      second := SettleCooldown(server);
    }
  }

  lemma SomeMember(servers: set<ServerId>)
    requires servers != {}
    ensures exists s :: s in servers
  {
    if forall s :: s !in servers {
      assert false;
    }
  }

  /** A server's pace as read from the manager's two maps. */
  function PaceIn(cooldowns: map<ServerId, int>, missCounts: map<ServerId, int>, s: ServerId): Pace {
    Pace(GetOr(cooldowns, s, BaseCooldown), GetOr(missCounts, s, 0))
  }

  /** The decision taken for `s` is the one for its round and its pace at
      the start of the tick. */
  ghost predicate DecidedAt(rounds: map<ServerId, Round>, c0: map<ServerId, int>, m0: map<ServerId, int>,
                            now: real, actions: map<ServerId, TickAction>, s: ServerId)
  {
    s in actions ==> s in rounds && actions[s] == TickDecision(rounds[s], now, PaceIn(c0, m0, s).cooldown)
  }

  ghost predicate Decided(rounds: map<ServerId, Round>, c0: map<ServerId, int>, m0: map<ServerId, int>,
                          now: real, actions: map<ServerId, TickAction>)
  {
    forall s :: DecidedAt(rounds, c0, m0, now, actions, s)
  }

  /** `s` has taken a miss and lost its streak if its time was up, and
      otherwise its pace and streak are as they were. */
  ghost predicate ExpiredAt(c0: map<ServerId, int>, m0: map<ServerId, int>, st0: map<ServerId, Streak>,
                            c: map<ServerId, int>, m: map<ServerId, int>, st: map<ServerId, Streak>,
                            actions: map<ServerId, TickAction>, s: ServerId)
  {
    if s in actions && actions[s].TimeUp? then
      PaceIn(c, m, s) == Adjusted(PaceIn(c0, m0, s), false) && GetOr(st, s, NoStreak) == NoStreak
    else
      PaceIn(c, m, s) == PaceIn(c0, m0, s) && GetOr(st, s, NoStreak) == GetOr(st0, s, NoStreak)
  }

  ghost predicate Expired(c0: map<ServerId, int>, m0: map<ServerId, int>, st0: map<ServerId, Streak>,
                          c: map<ServerId, int>, m: map<ServerId, int>, st: map<ServerId, Streak>,
                          actions: map<ServerId, TickAction>)
  {
    forall s :: ExpiredAt(c0, m0, st0, c, m, st, actions, s)
  }

  /** `cooldown_times` holds the new cooldown of every server whose round
      expired, and is untouched elsewhere. */
  ghost predicate StoredAt(c0: map<ServerId, int>, m0: map<ServerId, int>,
                           ct0: map<ServerId, int>, ct: map<ServerId, int>,
                           actions: map<ServerId, TickAction>, s: ServerId)
  {
    if s in actions && actions[s].TimeUp? then
      s in ct && ct[s] == Adjusted(PaceIn(c0, m0, s), false).cooldown
    else
      (s in ct <==> s in ct0) && (s in ct0 ==> ct[s] == ct0[s])
  }

  ghost predicate Stored(c0: map<ServerId, int>, m0: map<ServerId, int>,
                         ct0: map<ServerId, int>, ct: map<ServerId, int>,
                         actions: map<ServerId, TickAction>)
  {
    forall s :: StoredAt(c0, m0, ct0, ct, actions, s)
  }

  /** One more server's decision keeps `Stored`. */
  lemma StoreStep(c0: map<ServerId, int>, m0: map<ServerId, int>,
                  ct0: map<ServerId, int>, ct: map<ServerId, int>, ct1: map<ServerId, int>,
                  actions: map<ServerId, TickAction>, server: ServerId, a: TickAction)
    requires server !in actions
    requires Stored(c0, m0, ct0, ct, actions)
    requires a.TimeUp? ==> ct1 == ct[server := Adjusted(PaceIn(c0, m0, server), false).cooldown]
    requires !a.TimeUp? ==> ct1 == ct
    ensures Stored(c0, m0, ct0, ct1, actions[server := a])
  {
    var actions' := actions[server := a];
    forall s
      ensures StoredAt(c0, m0, ct0, ct1, actions', s)
    {
      assert StoredAt(c0, m0, ct0, ct, actions, s);
    }
  }

  lemma TickStep(rounds: map<ServerId, Round>, c0: map<ServerId, int>, m0: map<ServerId, int>, st0: map<ServerId, Streak>,
                 c: map<ServerId, int>, m: map<ServerId, int>, st: map<ServerId, Streak>,
                 c1: map<ServerId, int>, m1: map<ServerId, int>, st1: map<ServerId, Streak>,
                 now: real, actions: map<ServerId, TickAction>, server: ServerId, a: TickAction)
    requires server in rounds && server !in actions
    requires Decided(rounds, c0, m0, now, actions)
    requires Expired(c0, m0, st0, c, m, st, actions)
    requires a == TickDecision(rounds[server], now, PaceIn(c, m, server).cooldown)
    requires a.TimeUp? ==> && c1 == c[server := Adjusted(PaceIn(c, m, server), false).cooldown]
                           && m1 == m[server := Adjusted(PaceIn(c, m, server), false).misses]
                           && st1 == st[server := NoStreak]
    requires !a.TimeUp? ==> c1 == c && m1 == m && st1 == st
    ensures Decided(rounds, c0, m0, now, actions[server := a])
    ensures Expired(c0, m0, st0, c1, m1, st1, actions[server := a])
  {
    var actions' := actions[server := a];
    assert ExpiredAt(c0, m0, st0, c, m, st, actions, server);
    forall s
      ensures DecidedAt(rounds, c0, m0, now, actions', s)
    {
      assert DecidedAt(rounds, c0, m0, now, actions, s);
    }
    forall s
      ensures ExpiredAt(c0, m0, st0, c1, m1, st1, actions', s)
    {
      assert ExpiredAt(c0, m0, st0, c, m, st, actions, s);
      if s != server {
        assert PaceIn(c1, m1, s) == PaceIn(c, m, s);
        assert GetOr(st1, s, NoStreak) == GetOr(st, s, NoStreak);
      }
    }
  }

}
