/** The Qt game without its widgets: secret generation without a range check,
    the unguarded scorer, and the window's state (secret, attempt counter,
    start time, whether the countdown runs) with the callbacks that change
    it. Each clock reading is a parameter in seconds; each callback returns
    what its dialog or label would show. */
module Pqt6 {
  import opened Evaluator
  import BullsAndCows

  /** Where Python's slice xs[:k] stops in a list of n elements. */
  function SliceEnd(k: int, n: nat): (e: nat)
    ensures e <= n
  {
    if k < 0 then (if n + k < 0 then 0 else n + k)
    else if k < n then k
    else n
  }

  /** No range check here: digits[:length] keeps min(length, 10) digits for
      a non-negative length (and drops digits from the end for a negative one). */
  function GetSecretNumber(length: int, shuffled: seq<int>): (r: string)
    requires IsDigitPermutation(shuffled)
    ensures 0 <= length ==> |r| == if length < 10 then length else 10
    ensures length < 0 ==> |r| == if length <= -10 then 0 else 10 + length
    ensures AllDigits(r) && Distinct(r)
    ensures forall i :: 0 <= i < |r| ==> r[i] == DigitChar(shuffled[i])
  {
    var e := SliceEnd(length, 10);
    JoinedPrefixHasDistinctDigits(shuffled, e);
    Join(shuffled[..e])
  }

  /** For the lengths the window accepts, both front ends draw the same
      secret from the same shuffle. */
  lemma SecretsAgree(length: int, shuffled: seq<int>)
    requires IsDigitPermutation(shuffled) && BullsAndCows.ValidLength(length)
    ensures BullsAndCows.GetSecretNumber(length, shuffled) == Ok(GetSecretNumber(length, shuffled))
  {
    var a, b := BullsAndCows.GetSecretNumber(length, shuffled).value, GetSecretNumber(length, shuffled);
    assert |a| == |b|;
    forall i | 0 <= i < |a| ensures a[i] == b[i] {
    }
  }

  /** The scorer without a length guard: it indexes secret[i] for every
      position of the guess, so the guess must not be longer. With equal
      lengths it agrees with the console scorer. */
  method CheckGuess(secret: string, guess: string) returns (score: Score)
    requires |guess| <= |secret|
    ensures score == Score(Bulls(secret, guess), Cows(secret, guess))
  {
    var bulls, cows := 0, 0;
    var i := 0;
    while i < |guess|
      invariant 0 <= i <= |guess|
      invariant bulls == Bulls(secret, guess[..i])
      invariant cows == Cows(secret, guess[..i])
    {
      var digit := guess[i];
      assert guess[..i + 1][..i] == guess[..i];
      if digit == secret[i] {
        bulls := bulls + 1;
      } else if digit in secret {
        cows := cows + 1;
      }
      i := i + 1;
    }
    assert guess[..i] == guess;
    return Score(bulls, cows);
  }

  /** int(text) for a string of decimal digits. */
  function DecimalValue(s: string): (v: nat)
    requires AllDigits(s)
    ensures s != [] ==> v % 10 == s[|s| - 1] as int - '0' as int
    decreases |s|
  {
    if s == [] then 0
    else DecimalValue(s[..|s| - 1]) * 10 + (s[|s| - 1] as int - '0' as int)
  }

  /** The length field's test: digits only, with a value in [2, 10]. */
  predicate LengthAccepted(text: string) {
    IsDigitString(text) && 2 <= DecimalValue(text) <= 10
  }

  lemma LengthFieldExamples()
    ensures LengthAccepted("2") && LengthAccepted("07") && LengthAccepted("10")
    ensures !LengthAccepted("") && !LengthAccepted("1") && !LengthAccepted("11") && !LengthAccepted("4a")
  {
    assert "07"[..1] == "0" && "10"[..1] == "1" && "11"[..1] == "1";
    assert "0"[..0] == "" && "1"[..0] == "" && "2"[..0] == "";
  }

  /** Python's int() of a float: truncation toward zero. */
  function Truncate(x: real): (n: int)
    ensures 0.0 <= x ==> n as real <= x < n as real + 1.0
    ensures x < 0.0 ==> n as real - 1.0 < x <= n as real
  {
    if 0.0 <= x then x.Floor else -((-x).Floor)
  }

  datatype Duration = Duration(minutes: int, seconds: int)

  /** elapsed // 60 and elapsed % 60. Python floors; Dafny's / and % agree
      with it for the positive divisor 60, negative elapsed included. */
  function MinutesAndSeconds(elapsed: int): (d: Duration)
    ensures d.minutes * 60 + d.seconds == elapsed && 0 <= d.seconds < 60
  {
    Duration(elapsed / 60, elapsed % 60)
  }

  /** The split is the only one with seconds in [0, 60). */
  lemma SplitIsUnique(elapsed: int, d: Duration)
    requires d.minutes * 60 + d.seconds == elapsed && 0 <= d.seconds < 60
    ensures MinutesAndSeconds(elapsed) == d
  {
    var e := MinutesAndSeconds(elapsed);
    assert (e.minutes - d.minutes) * 60 == d.seconds - e.seconds;
  }

  datatype TimerEvent = Tick(remaining: int) | TimedOut(secret: string, spent: Duration)
  datatype StartReply = LengthRejected | Started(first: TimerEvent)
  datatype GuessReply = GuessRejected | Scored(score: Score) | Won(attempts: nat, taken: Duration, spent: Duration)
  datatype HintReply = Shown(hints: seq<Hint>) | NoHints | HintIndexError

  /** BullsAndCowsGUI reduced to the fields its callbacks update. */
  class GameWindow {
    var secretNumber: string
    var attempts: nat
    const timeLimit: int
    var startTime: real
    /** Whether the one-second QTimer is active. */
    var running: bool

    ghost predicate Valid()
      reads this
    {
      && timeLimit == 300
      && (secretNumber == "" ==> !running)
      && (secretNumber != "" ==>
            2 <= |secretNumber| <= 10 && IsDigitString(secretNumber) && Distinct(secretNumber))
    }

    constructor ()
      ensures Valid()
      ensures secretNumber == "" && attempts == 0 && timeLimit == 300 && startTime == 0.0 && !running
    {
      secretNumber := "";
      attempts := 0;
      timeLimit := 300;
      startTime := 0.0;
      running := false;
    }

    /** int(time.time() - self.start_time) for the clock reading now. */
    function Elapsed(now: real): int
      reads this
    {
      Truncate(now - startTime)
    }

    /** What end_game reports besides hiding widgets: the time spent since
        the round started, as minutes and seconds. */
    function EndGame(now: real): (spent: Duration)
      reads this
      ensures spent.minutes * 60 + spent.seconds == Elapsed(now) && 0 <= spent.seconds < 60
    {
      MinutesAndSeconds(Elapsed(now))
    }

    /** The countdown tick: remaining = 300 - elapsed; at or below zero the
        timer stops and the round ends (endNow is the clock end_game reads). */
    method UpdateTimer(now: real, endNow: real) returns (event: TimerEvent)
      requires Valid()
      modifies this`running
      ensures Valid()
      ensures event.TimedOut? <==> timeLimit - Elapsed(now) <= 0
      ensures event.TimedOut? ==> !running && event == TimedOut(secretNumber, EndGame(endNow))
      ensures event.Tick? ==> running == old(running) && event == Tick(timeLimit - Elapsed(now))
    {
      var elapsed := Truncate(now - startTime);
      var remaining := timeLimit - elapsed;
      if remaining <= 0 {
        running := false;
        event := TimedOut(secretNumber, EndGame(endNow));
      } else {
        event := Tick(remaining);
      }
    }

    /** A new round from the length field; a rejected length changes nothing.
        startNow is the clock start_time records, tickNow the one the first
        update_timer reads, endNow the one end_game reads if that first tick
        already times out. */
    method StartGame(lengthText: string, shuffled: seq<int>, startNow: real, tickNow: real, endNow: real)
      returns (reply: StartReply)
      requires Valid() && IsDigitPermutation(shuffled)
      modifies this
      ensures Valid()
      ensures !LengthAccepted(lengthText) ==> reply == LengthRejected && unchanged(this)
      ensures LengthAccepted(lengthText) ==>
        && secretNumber == GetSecretNumber(DecimalValue(lengthText), shuffled)
        && |secretNumber| == DecimalValue(lengthText)
        && attempts == 0 && startTime == startNow
        && reply.Started?
        && (reply.first.TimedOut? <==> timeLimit - Elapsed(tickNow) <= 0)
        && (reply.first.TimedOut? ==> !running && reply.first == TimedOut(secretNumber, EndGame(endNow)))
        && (reply.first.Tick? ==> running && reply.first == Tick(timeLimit - Elapsed(tickNow)))
      ensures LengthAccepted(lengthText) && tickNow == startNow ==>
        running && reply == Started(Tick(timeLimit))
    {
      if !LengthAccepted(lengthText) {
        return LengthRejected;
      }
      var length := DecimalValue(lengthText);
      secretNumber := GetSecretNumber(length, shuffled);
      attempts := 0;
      startTime := startNow;
      running := true;
      var event := UpdateTimer(tickNow, endNow);
      reply := Started(event);
    }

    /** A guess from the guess field: the wrong length or a non-digit changes
        nothing; otherwise it counts as one attempt and ends the round
        exactly when every digit is a bull (now is the clock the win message
        reads, endNow the one end_game reads). */
    method SubmitGuess(guess: string, now: real, endNow: real) returns (reply: GuessReply)
      requires Valid()
      modifies this
      ensures Valid()
      ensures secretNumber == old(secretNumber) && startTime == old(startTime)
      ensures (|guess| != |secretNumber| || !IsDigitString(guess)) ==>
        reply == GuessRejected && unchanged(this)
      ensures |guess| == |secretNumber| && IsDigitString(guess) ==>
        var score := Score(Bulls(secretNumber, guess), Cows(secretNumber, guess));
        && attempts == old(attempts) + 1
        && (score.bulls == |secretNumber| ==>
              !running && reply == Won(attempts, MinutesAndSeconds(Elapsed(now)), EndGame(endNow)))
        && (score.bulls != |secretNumber| ==> running == old(running) && reply == Scored(score))
      ensures reply.Won? <==> secretNumber != "" && guess == secretNumber
    {
      if |guess| != |secretNumber| || !IsDigitString(guess) {
        return GuessRejected;
      }
      WinExactly(secretNumber, guess);
      attempts := attempts + 1;
      var score := CheckGuess(secretNumber, guess);
      if score.bulls == |secretNumber| {
        running := false;
        var elapsed := Truncate(now - startTime);
        reply := Won(attempts, MinutesAndSeconds(elapsed), EndGame(endNow));
      } else {
        reply := Scored(score);
      }
    }

    /** The hints button: one message per digit of the field text that occurs
        in the secret, or the "no hints" message when there is none. A text
        longer than the secret makes secret[i] raise IndexError. */
    method GiveHints(text: string) returns (reply: HintReply)
      ensures reply == HintIndexError <==> |text| > |secretNumber|
      ensures |text| <= |secretNumber| ==>
        reply == if Hints(secretNumber, text) == [] then NoHints else Shown(Hints(secretNumber, text))
      ensures reply == NoHints <==>
        |text| <= |secretNumber| && forall i :: 0 <= i < |text| ==> text[i] !in secretNumber
    {
      var hints := [];
      var i := 0;
      while i < |text|
        invariant 0 <= i <= |text| && i <= |secretNumber|
        invariant hints == Hints(secretNumber, text[..i])
      {
        if i == |secretNumber| {
          return HintIndexError;
        }
        var digit := text[i];
        assert text[..i + 1][..i] == text[..i];
        if digit == secretNumber[i] {
          hints := hints + [InPlace(digit)];
        } else if digit in secretNumber {
          hints := hints + [Misplaced(digit)];
        }
        i := i + 1;
      }
      assert text[..i] == text;
      NoHintsIff(secretNumber, text);
      if hints != [] {
        reply := Shown(hints);
      } else {
        reply := NoHints;
      }
    }
  }
}
