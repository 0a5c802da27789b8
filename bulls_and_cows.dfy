/** The console game: secret generation with its length check, the guarded
    scorer, the hint list, and the round loop with its history and
    statistics. Keyboard input becomes parameters (a sequence of entries);
    printing is left out. */
module BullsAndCows {
  import opened Evaluator

  predicate ValidLength(length: int) {
    2 <= length <= 10
  }

  /** The secret for a round: the first `length` digits of the shuffled
      digit list, joined. Lengths outside [2, 10] are a ValueError. */
  function GetSecretNumber(length: int, shuffled: seq<int>): (r: Result<string>)
    requires IsDigitPermutation(shuffled)
    ensures r.Err? <==> !ValidLength(length)
    ensures r.Err? ==> r.error == InvalidLength
    ensures r.Ok? ==> |r.value| == length && IsDigitString(r.value) && Distinct(r.value)
    ensures r.Ok? ==> forall i :: 0 <= i < length ==> r.value[i] == DigitChar(shuffled[i])
  {
    if !ValidLength(length) then Err(InvalidLength)
    else
      JoinedPrefixHasDistinctDigits(shuffled, length);
      Ok(Join(shuffled[..length]))
  }

  /** One pass over the guess with two counters; a length mismatch is a
      ValueError, not a truncated comparison. */
  method CheckGuess(secret: string, guess: string) returns (r: Result<Score>)
    ensures r.Err? <==> |secret| != |guess|
    ensures r.Err? ==> r.error == LengthMismatch
    ensures r.Ok? ==> r.value == Score(Bulls(secret, guess), Cows(secret, guess))
  {
    if |secret| != |guess| {
      return Err(LengthMismatch);
    }
    var bulls, cows := 0, 0;
    var i := 0;
    while i < |guess|
      invariant 0 <= i <= |guess|
      invariant bulls == Bulls(secret, guess[..i])
      invariant cows == Cows(secret, guess[..i])
    {
      var digit := guess[i];
      assert guess[..i + 1][..i] == guess[..i];
      if digit == secret[i] {
        bulls := bulls + 1;
      } else if digit in secret {
        cows := cows + 1;
      }
      i := i + 1;
    }
    assert guess[..i] == guess;
    return Ok(Score(bulls, cows));
  }

  /** The hints the player asked for: none unless requested, otherwise one
      per guessed digit that occurs in the secret, in guess order. */
  method GetHints(secret: string, guess: string, requestHints: bool) returns (hints: seq<Hint>)
    requires requestHints ==> |guess| <= |secret|
    ensures !requestHints ==> hints == []
    ensures requestHints ==> hints == Hints(secret, guess)
  {
    if !requestHints {
      return [];
    }
    hints := [];
    var secretSet := CharSet(secret);
    var i := 0;
    while i < |guess|
      invariant 0 <= i <= |guess|
      invariant hints == Hints(secret, guess[..i])
    {
      var digit := guess[i];
      assert guess[..i + 1][..i] == guess[..i];
      if digit in secretSet {
        if digit == secret[i] {
          hints := hints + [InPlace(digit)];
        } else {
          hints := hints + [Misplaced(digit)];
        }
      }
      i := i + 1;
    }
    assert guess[..i] == guess;
  }

  /** The length prompt is repeated until an entry parses as an integer in
      [2, 10]; an entry is None when int() rejects the text. Returns the
      accepted length and how many entries were read, or None when the
      entries run out first. */
  method ReadLength(entries: seq<Option<int>>) returns (length: Option<nat>, used: nat)
    ensures used <= |entries|
    ensures length.Some? ==>
      used > 0 && entries[used - 1] == Some(length.value as int) && ValidLength(length.value)
    ensures length.None? ==> used == |entries|
    ensures forall k :: 0 <= k < used && (k < used - 1 || length.None?) ==>
      !(entries[k].Some? && ValidLength(entries[k].value))
  {
    used := 0;
    while used < |entries|
      invariant used <= |entries|
      invariant forall k :: 0 <= k < used ==> !(entries[k].Some? && ValidLength(entries[k].value))
    {
      var entry := entries[used];
      used := used + 1;
      if entry.Some? && ValidLength(entry.value) {
        return Some(entry.value), used;
      }
    }
    return None, used;
  }

  /** The console's guess test as written: the right length, all digits,
      and as many distinct digits (len(set(guess))) as the length. */
  predicate GuessTest(guess: string, length: nat) {
    |guess| == length && IsDigitString(guess) && |CharSet(guess)| == length
  }

  /** What the test accepts: a string of `length` digits, none repeated. */
  predicate AcceptedGuess(guess: string, length: nat) {
    |guess| == length && IsDigitString(guess) && Distinct(guess)
  }

  /** The set-size test is the "no repeated digit" test. */
  lemma GuessTestMeansDistinctDigits(guess: string, length: nat)
    ensures GuessTest(guess, length) <==> AcceptedGuess(guess, length)
  {
    CharSetSize(guess);
  }

  /** One line of the attempt history. */
  datatype Attempt = Attempt(guess: string, bulls: nat, cows: nat)

  /** What the player typed at the guess prompt, and the answer to the
      hints question that follows an accepted guess. */
  datatype Entry = Entry(guess: string, wantsHints: bool)

  datatype TurnResult = Rejected | Scored(bulls: nat, cows: nat, hints: seq<Hint>)

  /** The history line one entry adds: its score if the guess is accepted,
      nothing otherwise. */
  function RecordFor(secret: string, guess: string): seq<Attempt> {
    if AcceptedGuess(guess, |secret|) then [Attempt(guess, Bulls(secret, guess), Cows(secret, guess))] else []
  }

  /** The history a sequence of entries leaves: one record per accepted entry. */
  function Records(secret: string, entries: seq<Entry>): seq<Attempt>
    decreases |entries|
  {
    if entries == [] then []
    else
      var n := |entries| - 1;
      Records(secret, entries[..n]) + RecordFor(secret, entries[n].guess)
  }

  /** Playing one more entry extends the history by that entry's record. */
  lemma HistoryStep(secret: string, entries: seq<Entry>, n: nat, history: seq<Attempt>, before: seq<Attempt>, after: seq<Attempt>)
    requires n < |entries|
    requires before == history + Records(secret, entries[..n])
    requires after == before + RecordFor(secret, entries[n].guess)
    ensures after == history + Records(secret, entries[..n + 1])
  {
    assert entries[..n + 1][..n] == entries[..n];
  }

  /** Every line of a history is an accepted guess with its own score: the
      one record RecordFor gives for it. */
  ghost predicate ScoredHistory(secret: string, history: seq<Attempt>) {
    forall k :: 0 <= k < |history| ==> [history[k]] == RecordFor(secret, history[k].guess)
  }

  lemma ScoredHistoryGrows(secret: string, history: seq<Attempt>, guess: string)
    requires ScoredHistory(secret, history)
    ensures ScoredHistory(secret, history + RecordFor(secret, guess))
  {
    var h := history + RecordFor(secret, guess);
    forall k | 0 <= k < |h| ensures [h[k]] == RecordFor(secret, h[k].guess) {
      if k >= |history| {
        assert h[k] == RecordFor(secret, guess)[0];
      }
    }
  }

  /** One session of play_bulls_and_cows after the length prompt: the
      secret, the attempt list and the game_stats counters. */
  class ConsoleGame {
    const length: nat
    const secretNumber: string
    var attempts: seq<Attempt>
    var gamesPlayed: nat
    var totalAttempts: nat
    var won: bool

    ghost predicate Valid()
      reads this
    {
      && ValidLength(length)
      && |secretNumber| == length && IsDigitString(secretNumber) && Distinct(secretNumber)
      && gamesPlayed == 1
      && totalAttempts == |attempts|
      && ScoredHistory(secretNumber, attempts)
      && (won <==> |attempts| > 0 && attempts[|attempts| - 1].bulls == length)
      && (forall k :: 0 <= k < |attempts| - 1 ==> attempts[k].bulls < length)
    }

    /** The round starts once a length is accepted: a fresh secret, an
        empty history, one game played. */
    constructor (length: nat, shuffled: seq<int>)
      requires ValidLength(length) && IsDigitPermutation(shuffled)
      ensures Valid()
      ensures this.length == length && GetSecretNumber(length, shuffled) == Ok(secretNumber)
      ensures attempts == [] && gamesPlayed == 1 && totalAttempts == 0 && !won
    {
      this.length := length;
      secretNumber := GetSecretNumber(length, shuffled).value;
      attempts := [];
      gamesPlayed, totalAttempts := 1, 0;
      won := false;
    }

    /** One pass of the guess loop: a rejected guess changes nothing; an
        accepted one is scored, recorded once, counted once, and ends the
        round exactly when every digit is a bull. */
    method Turn(guess: string, requestHints: bool) returns (result: TurnResult)
      requires Valid() && !won
      modifies this
      ensures Valid()
      ensures gamesPlayed == old(gamesPlayed)
      ensures attempts == old(attempts) + RecordFor(secretNumber, guess)
      ensures !AcceptedGuess(guess, length) ==>
        result == Rejected && totalAttempts == old(totalAttempts) && !won
      ensures AcceptedGuess(guess, length) ==>
        var b, c := Bulls(secretNumber, guess), Cows(secretNumber, guess);
        && result == Scored(b, c, if requestHints then Hints(secretNumber, guess) else [])
        && totalAttempts == old(totalAttempts) + 1
        && won == (b == length)
      ensures won <==> guess == secretNumber
    {
      GuessTestMeansDistinctDigits(guess, length);
      if !GuessTest(guess, length) {
        return Rejected;
      }
      WinExactly(secretNumber, guess);
      if attempts != [] {
        // the last recorded guess was not a win, so it scored fewer bulls than digits
        ScoreBound(secretNumber, attempts[|attempts| - 1].guess);
      }
      var r := CheckGuess(secretNumber, guess);
      assert r.Ok?;
      var score := r.value;
      var hints := GetHints(secretNumber, guess, requestHints);
      ScoredHistoryGrows(secretNumber, attempts, guess);
      attempts := attempts + [Attempt(guess, score.bulls, score.cows)];
      totalAttempts := totalAttempts + 1;
      won := score.bulls == length;
      result := Scored(score.bulls, score.cows, hints);
    }

    /** The guess loop: entries are read until the secret is guessed or the
        entries run out. Every accepted entry lands in the history; the
        round is won exactly by the first entry equal to the secret. */
    method Play(entries: seq<Entry>) returns (used: nat)
      requires Valid() && !won
      modifies this
      ensures Valid()
      ensures used <= |entries|
      ensures attempts == old(attempts) + Records(secretNumber, entries[..used])
      ensures !won ==> used == |entries|
      ensures !won ==> forall k :: 0 <= k < used ==> entries[k].guess != secretNumber
      ensures won ==> used > 0 && entries[used - 1].guess == secretNumber
      ensures won ==> forall k :: 0 <= k < used - 1 ==> entries[k].guess != secretNumber
    {
      ghost var history := attempts;
      used := 0;
      while used < |entries| && !won
        invariant Valid()
        invariant used <= |entries|
        invariant attempts == history + Records(secretNumber, entries[..used])
        invariant !won ==> forall k :: 0 <= k < used ==> entries[k].guess != secretNumber
        invariant won ==> used > 0 && entries[used - 1].guess == secretNumber
        invariant won ==> forall k :: 0 <= k < used - 1 ==> entries[k].guess != secretNumber
      {
        ghost var before := attempts;
        var _ := Turn(entries[used].guess, entries[used].wantsHints);
        HistoryStep(secretNumber, entries, used, history, before, attempts);
        if !won {
          assert forall k :: 0 <= k < used + 1 ==> entries[k].guess != secretNumber;
        }
        used := used + 1;
      }
    }
  }
}
