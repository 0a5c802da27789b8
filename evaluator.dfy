/** The guess evaluator both front ends share: what a digit string is, and the
    reference meaning of bulls, cows and hints. The console and the Qt front
    end each carry their own counting loop; both are proved to compute the
    functions defined here. */
module Evaluator {

  datatype Option<T> = None | Some(value: T)

  /** The ValueError cases of the console front end. */
  datatype Error = InvalidLength | LengthMismatch

  datatype Result<T> = Ok(value: T) | Err(error: Error)

  datatype Score = Score(bulls: nat, cows: nat)

  /** One hint about a guessed digit: the secret has it at this very
      position, or the secret has it somewhere else. */
  datatype Hint = InPlace(digit: char) | Misplaced(digit: char)

  predicate IsDigit(c: char) {
    '0' <= c <= '9'
  }

  predicate AllDigits(s: string) {
    forall i :: 0 <= i < |s| ==> IsDigit(s[i])
  }

  /** Python's str.isdigit on ASCII text: at least one character, and every
      character a decimal digit. */
  predicate IsDigitString(s: string) {
    |s| > 0 && AllDigits(s)
  }

  predicate Distinct(s: string) {
    forall i, j :: 0 <= i < j < |s| ==> s[i] != s[j]
  }

  /** The characters of s, as Python's set(s) collects them. */
  function CharSet(s: string): set<char> {
    set c | c in s
  }

  /** len(set(s)) == len(s) is the source's test for "no digit repeats". */
  lemma {:induction false} CharSetSize(s: string)
    ensures |CharSet(s)| <= |s|
    ensures |CharSet(s)| == |s| <==> Distinct(s)
  {
    if s == [] {
      assert CharSet(s) == {};
    } else {
      var n := |s| - 1;
      var p := s[..n];
      CharSetSize(p);
      assert s == p + [s[n]];
      CharSetOfSnoc(p, s[n]);
      DistinctSnoc(s);
      if s[n] in p {
        assert s[n] in CharSet(p);
      } else {
        assert s[n] !in CharSet(p);
      }
    }
  }

  /** The character str() gives a single decimal digit. */
  function DigitChar(d: int): (c: char)
    requires 0 <= d < 10
    ensures IsDigit(c) && c as int - '0' as int == d
  {
    ('0' as int + d) as char
  }

  /** The ten digits, each exactly once, in some order: what random.shuffle
      leaves in list(range(10)). */
  predicate IsDigitPermutation(p: seq<int>) {
    && |p| == 10
    && (forall i :: 0 <= i < |p| ==> 0 <= p[i] < 10)
    && (forall i, j :: 0 <= i < j < |p| ==> p[i] != p[j])
  }

  /** "".join(map(str, ds)) for a list of single digits. */
  function Join(ds: seq<int>): (s: string)
    requires forall i :: 0 <= i < |ds| ==> 0 <= ds[i] < 10
    ensures |s| == |ds|
    ensures forall i :: 0 <= i < |ds| ==> s[i] == DigitChar(ds[i])
    decreases |ds|
  {
    if ds == [] then "" else Join(ds[..|ds| - 1]) + [DigitChar(ds[|ds| - 1])]
  }

  /** The first k digits of a permutation, joined, form a string of k
      distinct decimal digits. */
  lemma JoinedPrefixHasDistinctDigits(p: seq<int>, k: nat)
    requires IsDigitPermutation(p) && k <= |p|
    ensures AllDigits(Join(p[..k])) && Distinct(Join(p[..k]))
  {
    var s := Join(p[..k]);
    forall i, j | 0 <= i < j < |s| ensures s[i] != s[j] {
      assert s[i] as int - '0' as int == p[i] && s[j] as int - '0' as int == p[j];
    }
  }

  // ----- Scoring: one pass over the guess, position by position -----

  /** Number of positions of the guess whose digit equals the secret's digit
      there, counted over the guess from its end back. */
  function Bulls(secret: string, guess: string): nat
    requires |guess| <= |secret|
    decreases |guess|
  {
    if guess == [] then 0
    else
      var n := |guess| - 1;
      Bulls(secret, guess[..n]) + (if guess[n] == secret[n] then 1 else 0)
  }

  /** Number of positions whose digit differs from the secret's there but
      occurs somewhere in the secret. */
  function Cows(secret: string, guess: string): nat
    requires |guess| <= |secret|
    decreases |guess|
  {
    if guess == [] then 0
    else
      var n := |guess| - 1;
      Cows(secret, guess[..n]) + (if guess[n] != secret[n] && guess[n] in secret then 1 else 0)
  }

  /** The hint position i earns when the guess has the given digit there. */
  function HintFor(secret: string, i: nat, digit: char): seq<Hint>
    requires i < |secret|
  {
    if digit == secret[i] then [InPlace(digit)]
    else if digit in secret then [Misplaced(digit)]
    else []
  }

  /** All hints for a guess, in guess order. */
  function Hints(secret: string, guess: string): seq<Hint>
    requires |guess| <= |secret|
    decreases |guess|
  {
    if guess == [] then []
    else
      var n := |guess| - 1;
      Hints(secret, guess[..n]) + HintFor(secret, n, guess[n])
  }

  /** Positions of the guess whose digit occurs in the secret, ascending. */
  function HintPositions(secret: string, guess: string): seq<nat>
    requires |guess| <= |secret|
    decreases |guess|
  {
    if guess == [] then []
    else
      var n := |guess| - 1;
      HintPositions(secret, guess[..n]) + (if guess[n] in secret then [n] else [])
  }

  function InPlaceCount(hs: seq<Hint>): nat
    decreases |hs|
  {
    if hs == [] then 0
    else InPlaceCount(hs[..|hs| - 1]) + (if hs[|hs| - 1].InPlace? then 1 else 0)
  }

  function MisplacedCount(hs: seq<Hint>): nat
    decreases |hs|
  {
    if hs == [] then 0
    else MisplacedCount(hs[..|hs| - 1]) + (if hs[|hs| - 1].Misplaced? then 1 else 0)
  }

  // ----- Independent definitions of the counts, as sets of positions -----

  function BullPositions(secret: string, guess: string): set<int>
    requires |guess| <= |secret|
  {
    set i | 0 <= i < |guess| && guess[i] == secret[i]
  }

  function CowPositions(secret: string, guess: string): set<int>
    requires |guess| <= |secret|
  {
    set i | 0 <= i < |guess| && guess[i] != secret[i] && guess[i] in secret
  }

  /** Bulls counts exactly the positions where guess and secret agree. */
  lemma {:induction false} BullsCountPositions(secret: string, guess: string)
    requires |guess| <= |secret|
    ensures Bulls(secret, guess) == |BullPositions(secret, guess)|
    decreases |guess|
  {
    if guess == [] {
      assert BullPositions(secret, guess) == {};
    } else {
      var n := |guess| - 1;
      var p := guess[..n];
      BullsCountPositions(secret, p);
      var before := BullPositions(secret, p);
      assert n !in before;
      assert BullPositions(secret, guess) == before + (if guess[n] == secret[n] then {n} else {}) by {
        forall i | 0 <= i < n ensures p[i] == guess[i] {}
      }
    }
  }

  /** Cows counts exactly the positions holding a secret digit that the
      secret has elsewhere. */
  lemma {:induction false} CowsCountPositions(secret: string, guess: string)
    requires |guess| <= |secret|
    ensures Cows(secret, guess) == |CowPositions(secret, guess)|
    decreases |guess|
  {
    if guess == [] {
      assert CowPositions(secret, guess) == {};
    } else {
      var n := |guess| - 1;
      var p := guess[..n];
      CowsCountPositions(secret, p);
      var before := CowPositions(secret, p);
      assert n !in before;
      var isCow := guess[n] != secret[n] && guess[n] in secret;
      assert CowPositions(secret, guess) == before + (if isCow then {n} else {}) by {
        forall i | 0 <= i < n ensures p[i] == guess[i] {}
      }
    }
  }

  /** Every position is a bull, a cow or neither: bulls + cows <= len(guess). */
  lemma {:induction false} ScoreBound(secret: string, guess: string)
    requires |guess| <= |secret|
    ensures Bulls(secret, guess) + Cows(secret, guess) <= |guess|
    decreases |guess|
  {
    if guess != [] {
      ScoreBound(secret, guess[..|guess| - 1]);
    }
  }

  /** All positions are bulls exactly when the guess is the secret's prefix
      of the same length. */
  lemma {:induction false} AllBullsIffPrefix(secret: string, guess: string)
    requires |guess| <= |secret|
    ensures Bulls(secret, guess) == |guess| <==> guess == secret[..|guess|]
    decreases |guess|
  {
    if guess != [] {
      var n := |guess| - 1;
      var p := guess[..n];
      AllBullsIffPrefix(secret, p);
      ScoreBound(secret, p);
      assert guess == p + [guess[n]];
      assert secret[..n + 1] == secret[..n] + [secret[n]];
      if guess == secret[..n + 1] {
        assert p == secret[..n];
      }
    }
  }

  /** The win test bulls == len(secret) holds exactly when the guess is the
      secret. */
  lemma WinExactly(secret: string, guess: string)
    requires |guess| == |secret|
    ensures Bulls(secret, guess) == |secret| <==> guess == secret
  {
    AllBullsIffPrefix(secret, guess);
    assert secret[..|guess|] == secret;
  }

  /** Guessing the secret itself scores (len(secret), 0). */
  lemma SelfScore(secret: string)
    ensures Bulls(secret, secret) == |secret| && Cows(secret, secret) == 0
  {
    WinExactly(secret, secret);
    ScoreBound(secret, secret);
  }

  /** The hint positions are positions of the guess holding a digit of the
      secret, in strictly ascending order. */
  lemma {:induction false} HintPositionsAscend(secret: string, guess: string)
    requires |guess| <= |secret|
    ensures forall k :: 0 <= k < |HintPositions(secret, guess)| ==>
      HintPositions(secret, guess)[k] < |guess| && guess[HintPositions(secret, guess)[k]] in secret
    ensures forall k, l :: 0 <= k < l < |HintPositions(secret, guess)| ==>
      HintPositions(secret, guess)[k] < HintPositions(secret, guess)[l]
    decreases |guess|
  {
    if guess != [] {
      var n := |guess| - 1;
      var p := guess[..n];
      HintPositionsAscend(secret, p);
      var ps := HintPositions(secret, p);
      assert forall k :: 0 <= k < |ps| ==> guess[ps[k]] == p[ps[k]];
    }
  }

  /** Every position of the guess holding a digit of the secret gets a hint. */
  lemma {:induction false} HintPositionsComplete(secret: string, guess: string)
    requires |guess| <= |secret|
    ensures forall i :: 0 <= i < |guess| && guess[i] in secret ==> i in HintPositions(secret, guess)
    decreases |guess|
  {
    if guess != [] {
      var n := |guess| - 1;
      var p := guess[..n];
      HintPositionsComplete(secret, p);
      forall i | 0 <= i < n ensures p[i] == guess[i] {}
    }
  }

  /** The k-th hint is about the k-th hint position: "in place" exactly when
      the guess digit there equals the secret's digit there, otherwise
      "misplaced". So hints follow guess order, one per position whose digit
      occurs in the secret. */
  lemma {:induction false} HintsFollowGuess(secret: string, guess: string)
    requires |guess| <= |secret|
    ensures |Hints(secret, guess)| == |HintPositions(secret, guess)|
    ensures forall k :: 0 <= k < |HintPositions(secret, guess)| ==>
      var i := HintPositions(secret, guess)[k];
      i < |guess| &&
      Hints(secret, guess)[k] == if guess[i] == secret[i] then InPlace(guess[i]) else Misplaced(guess[i])
    decreases |guess|
  {
    if guess != [] {
      var n := |guess| - 1;
      var p := guess[..n];
      HintsFollowGuess(secret, p);
      var hs, ps := Hints(secret, p), HintPositions(secret, p);
      var h := HintFor(secret, n, guess[n]);
      var e := if guess[n] in secret then [n] else [];
      assert Hints(secret, guess) == hs + h && HintPositions(secret, guess) == ps + e;
      assert |h| == |e|;
      forall k | 0 <= k < |ps + e|
        ensures var i := (ps + e)[k];
          i < |guess| &&
          (hs + h)[k] == if guess[i] == secret[i] then InPlace(guess[i]) else Misplaced(guess[i])
      {
        if k < |ps| {
          assert (ps + e)[k] == ps[k] && (hs + h)[k] == hs[k];
          assert guess[ps[k]] == p[ps[k]];
        }
      }
    }
  }

  /** The hint kinds correspond one to one with the score: as many "in
      place" hints as bulls, as many "misplaced" hints as cows. */
  lemma {:induction false} HintKindsMatchScore(secret: string, guess: string)
    requires |guess| <= |secret|
    ensures InPlaceCount(Hints(secret, guess)) == Bulls(secret, guess)
    ensures MisplacedCount(Hints(secret, guess)) == Cows(secret, guess)
    ensures |Hints(secret, guess)| == Bulls(secret, guess) + Cows(secret, guess)
    decreases |guess|
  {
    if guess != [] {
      var n := |guess| - 1;
      var p := guess[..n];
      HintKindsMatchScore(secret, p);
      var hs := Hints(secret, p);
      var h := HintFor(secret, n, guess[n]);
      assert Hints(secret, guess) == hs + h;
      if h != [] {
        assert (hs + h)[..|hs|] == hs;
      } else {
        assert hs + h == hs;
      }
    }
  }

  /** No hint at all exactly when no digit of the guess occurs in the secret. */
  lemma {:induction false} NoHintsIff(secret: string, guess: string)
    requires |guess| <= |secret|
    ensures Hints(secret, guess) == [] <==> forall i :: 0 <= i < |guess| ==> guess[i] !in secret
    decreases |guess|
  {
    if guess != [] {
      var n := |guess| - 1;
      var p := guess[..n];
      NoHintsIff(secret, p);
      assert Hints(secret, guess) == Hints(secret, p) + HintFor(secret, n, guess[n]);
      if forall i :: 0 <= i < |guess| ==> guess[i] !in secret {
        forall i | 0 <= i < |p| ensures p[i] !in secret {
          assert p[i] == guess[i];
        }
      }
      if forall i :: 0 <= i < |p| ==> p[i] !in secret {
        forall i | 0 <= i < n ensures guess[i] !in secret {
          assert p[i] == guess[i];
        }
      }
    }
  }

  lemma CharSetOfSnoc(p: string, c: char)
    ensures CharSet(p + [c]) == CharSet(p) + {c}
  {
    var s := p + [c];
    forall d | d in CharSet(s) ensures d in CharSet(p) + {c} {
      var k :| 0 <= k < |s| && s[k] == d;
      if k < |p| { assert p[k] == d; }
    }
    forall d | d in CharSet(p) ensures d in CharSet(s) {
      var k :| 0 <= k < |p| && p[k] == d;
      assert s[k] == d;
    }
  }

  lemma DistinctSnoc(s: string)
    requires s != []
    ensures Distinct(s) <==> Distinct(s[..|s| - 1]) && s[|s| - 1] !in s[..|s| - 1]
  {
    var n := |s| - 1;
    var p := s[..n];
    if Distinct(s) {
      forall i, j | 0 <= i < j < |p| ensures p[i] != p[j] {
        assert p[i] == s[i] && p[j] == s[j];
      }
      forall k | 0 <= k < |p| ensures p[k] != s[n] {
        assert p[k] == s[k];
      }
    }
    if Distinct(p) && s[n] !in p {
      forall i, j | 0 <= i < j < |s| ensures s[i] != s[j] {
        if j < n {
          assert s[i] == p[i] && s[j] == p[j];
        } else {
          assert s[i] == p[i];
        }
      }
    }
  }

  /** One more guess digit, not seen before, adds one common digit exactly
      when the secret has it. */
  lemma CommonDigitsOfSnoc(p: string, c: char, secret: string)
    requires c !in p
    ensures |CharSet(p + [c]) * CharSet(secret)| ==
      |CharSet(p) * CharSet(secret)| + (if c in secret then 1 else 0)
  {
    CharSetOfSnoc(p, c);
    var common := CharSet(p) * CharSet(secret);
    assert c !in CharSet(p);
    if c in secret {
      assert c in CharSet(secret);
      assert CharSet(p + [c]) * CharSet(secret) == common + {c};
    } else {
      assert c !in CharSet(secret);
      assert CharSet(p + [c]) * CharSet(secret) == common;
    }
  }

  /** With a guess of distinct digits (what the console enforces), bulls and
      cows together count the digits guess and secret have in common. */
  lemma {:induction false} ScoreCountsCommonDigits(secret: string, guess: string)
    requires |guess| <= |secret| && Distinct(guess)
    ensures Bulls(secret, guess) + Cows(secret, guess) == |CharSet(guess) * CharSet(secret)|
    decreases |guess|
  {
    if guess == [] {
      assert CharSet(guess) == {};
    } else {
      var n := |guess| - 1;
      var p := guess[..n];
      var c := guess[n];
      DistinctSnoc(guess);
      ScoreCountsCommonDigits(secret, p);
      assert guess == p + [c];
      CommonDigitsOfSnoc(p, c, secret);
    }
  }

  // ----- The cases the test suite checks -----

  lemma ScoreExampleFourBulls()
    ensures Bulls("98765", "98760") == 4 && Cows("98765", "98760") == 0
  {
    assert "98760"[..4] == "9876" && "9876"[..3] == "987" && "987"[..2] == "98";
    assert "98"[..1] == "9" && "9"[..0] == "";
  }

  lemma ScoreExampleOneBull()
    ensures Bulls("98765", "12345") == 1 && Cows("98765", "12345") == 0
  {
    assert "12345"[..4] == "1234" && "1234"[..3] == "123" && "123"[..2] == "12";
    assert "12"[..1] == "1" && "1"[..0] == "";
  }

  lemma ScoreExamplesOneDigit()
    ensures Bulls("9", "9") == 1 && Cows("9", "9") == 0
    ensures Bulls("5", "3") == 0 && Cows("5", "3") == 0
  {
    assert "9"[..0] == "" && "3"[..0] == "";
  }

  lemma ScoreExampleOnlyBulls()
    ensures Bulls("54321", "54321") == 5 && Cows("54321", "54321") == 0
  {
    SelfScore("54321");
  }

  lemma HintExampleWithRequest()
    ensures Hints("1234", "1245") == [InPlace('1'), InPlace('2'), Misplaced('4')]
  {
    assert "1245"[..3] == "124" && "124"[..2] == "12" && "12"[..1] == "1" && "1"[..0] == "";
  }

  lemma HintExampleMixed()
    ensures InPlace('1') in Hints("12345", "12543") && Misplaced('5') in Hints("12345", "12543")
  {
    assert "12543"[..4] == "1254" && "1254"[..3] == "125" && "125"[..2] == "12";
    assert "12"[..1] == "1" && "1"[..0] == "";
  }

  lemma HintExampleAllPresent()
    ensures Hints("98765", "56789") ==
      [Misplaced('5'), Misplaced('6'), InPlace('7'), Misplaced('8'), Misplaced('9')]
  {
    assert "56789"[..4] == "5678" && "5678"[..3] == "567" && "567"[..2] == "56";
    assert "56"[..1] == "5" && "5"[..0] == "";
  }

  /** The test for ("98765", "12345") expects no bull, but both strings have
      the digit 5 at their last position. */
  lemma LengthFiveTestExpectationFails()
    ensures Bulls("98765", "12345") != 0
  {
    ScoreExampleOneBull();
  }

  /** The test for ("98765", "56789") expects a "misplaced" hint for 7, but
      both strings have 7 in the middle, so the hint for 7 is "in place". */
  lemma MixedHintTestExpectationFails()
    ensures Misplaced('7') !in Hints("98765", "56789")
  {
    HintExampleAllPresent();
  }
}
