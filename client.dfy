/**
 * frontend/public/scripts/app.js, the browser-side scorer: each keystroke
 * marks every UTF-16 code unit of the target as untyped, correct or incorrect,
 * counts the correct ones, shows the accuracy and ends the game on an exact
 * match; `calculateWPM` turns the typed words and the elapsed seconds into
 * a speed; the leaderboard view numbers the rows it receives.
 */
module Client {
  import opened Wrappers
  import opened Text
  import opened Tiers
  import opened Models
  import opened Ranking

  /** The class a character span gets: none, `correct` or `incorrect`. */
  datatype Mark = Untyped | Correct | Incorrect

  /** Position `i` of the target against the code units typed so far. */
  function MarkAt(target: seq<CodeUnit>, typed: seq<CodeUnit>, i: nat): (m: Mark)
    requires i < |target|
    ensures m == Untyped <==> i >= |typed|
    ensures m == Correct <==> i < |typed| && typed[i] == target[i]
  {
    if i >= |typed| then Untyped
    else if typed[i] == target[i] then Correct
    else Incorrect
  }

  /** The marks of all the target's spans, one per UTF-16 code unit. */
  function Marks(target: seq<CodeUnit>, typed: seq<CodeUnit>): (ms: seq<Mark>)
    ensures |ms| == |target|
    ensures forall i :: 0 <= i < |target| ==> ms[i] == MarkAt(target, typed, i)
  {
    seq(|target|, i requires 0 <= i < |target| => MarkAt(target, typed, i))
  }

  /** How many of the first `n` target positions are typed correctly. */
  function CorrectIn(target: seq<CodeUnit>, typed: seq<CodeUnit>, n: nat): (c: nat)
    requires n <= |target|
    ensures c <= n && c <= |typed|
    ensures c == n <==> forall i :: 0 <= i < n ==> MarkAt(target, typed, i) == Correct
  {
    if n == 0 then 0
    else CorrectIn(target, typed, n - 1) + (if MarkAt(target, typed, n - 1) == Correct then 1 else 0)
  }

  /** `CorrectIn` counts the `Correct` marks among the first `n` spans. */
  lemma {:induction false} CorrectInCountsMarks(target: seq<CodeUnit>, typed: seq<CodeUnit>, n: nat)
    requires n <= |target|
    ensures CorrectIn(target, typed, n) == multiset(Marks(target, typed)[..n])[Correct]
  {
    if n > 0 {
      var ms := Marks(target, typed);
      assert ms[..n] == ms[..n - 1] + [ms[n - 1]];
      CorrectInCountsMarks(target, typed, n - 1);
    }
  }

  /** `correctCount` once every span has been visited: the number of spans marked correct. */
  function CorrectCount(target: seq<CodeUnit>, typed: seq<CodeUnit>): (c: nat)
    ensures c == multiset(Marks(target, typed))[Correct]
    ensures c <= |target| && c <= |typed|
    ensures c == |target| <==> |target| <= |typed| && typed[..|target|] == target
  {
    FullCountIsPrefix(target, typed);
    CorrectInCountsMarks(target, typed, |target|);
    assert Marks(target, typed)[..|target|] == Marks(target, typed);
    CorrectIn(target, typed, |target|)
  }

  lemma FullCountIsPrefix(target: seq<CodeUnit>, typed: seq<CodeUnit>)
    ensures CorrectIn(target, typed, |target|) == |target| <==> |target| <= |typed| && typed[..|target|] == target
  {
    if CorrectIn(target, typed, |target|) == |target| {
      if |target| > 0 {
        assert MarkAt(target, typed, |target| - 1) == Correct;
      }
      forall i | 0 <= i < |target|
        ensures typed[..|target|][i] == target[i]
      {
        assert MarkAt(target, typed, i) == Correct;
      }
    } else {
      var i :| 0 <= i < |target| && MarkAt(target, typed, i) != Correct;
      assert |target| > |typed| || typed[..|target|][i] != target[i];
    }
  }

  /**
   * The end condition of the input handler: as many units typed as the
   * target has and all of them correct. It holds exactly when the typed
   * units are the target's.
   */
  lemma {:induction false} GameEndsIffExact(target: seq<CodeUnit>, typed: seq<CodeUnit>)
    ensures (|typed| == |target| && CorrectCount(target, typed) == |target|) <==> typed == target
  {
    if |typed| == |target| {
      assert typed[..|target|] == typed;
    }
  }

  /**
   * Spans are per code unit, not per character: typing one emoji for
   * another that shares its high surrogate marks one span of two correct,
   * and the accuracy shown is 50.
   */
  lemma AstralMismatchIsHalfCorrect()
    ensures var target := Utf16("\U{1F60A}"); var typed := Utf16("\U{1F600}");
      && |target| == 2 && |typed| == 2
      && Marks(target, typed) == [Correct, Incorrect]
      && CorrectCount(target, typed) == 1
      && Accuracy(CorrectCount(target, typed), |typed|) == 50.0
  {
    var target := Utf16("\U{1F60A}");
    var typed := Utf16("\U{1F600}");
    assert target == [0xD83D, 0xDE0A];
    assert typed == [0xD83D, 0xDE00];
    assert Marks(target, typed) == [Correct, Incorrect];
    assert multiset([Correct, Incorrect])[Correct] == 1;
  }

  /** The accuracy shown: `correct / typed * 100`, or 100 before anything is typed. */
  function Accuracy(correct: nat, typedLen: nat): (r: real)
    requires correct <= typedLen
    ensures 0.0 <= r <= 100.0
    ensures r == 100.0 <==> correct == typedLen
    ensures typedLen > 0 ==> r * typedLen as real == correct as real * 100.0
  {
    if typedLen == 0 then 100.0
    else
      Ratio(correct as real, typedLen as real);
      correct as real / typedLen as real * 100.0
  }

  /** A part over a positive whole lies in [0, 1] and is 1 exactly when the part is the whole. */
  lemma Ratio(part: real, whole: real)
    requires 0.0 <= part <= whole && whole > 0.0
    ensures 0.0 <= part / whole <= 1.0
    ensures part / whole == 1.0 <==> part == whole
    ensures (part / whole * 100.0) * whole == part * 100.0
  {
    var q := part / whole;
    assert q * whole == part;
    assert (1.0 - q) * whole == whole - part;
    assert (q * 100.0) * whole == 100.0 * (q * whole);
  }

  /** What one `input` event does: nothing outside a game, else the new score. */
  datatype InputOutcome = Ignored | Scored(correct: nat, accuracy: real, ended: bool)

  /** The game view: the target text, its spans, the game flag and the accuracy shown. */
  class TypingGame {
    var targetText: seq<CodeUnit>
    var spans: array<Mark>
    var inProgress: bool
    var accuracyShown: real

    /** One span per UTF-16 code unit of the target. */
    ghost predicate Valid()
      reads this
    {
      spans.Length == |targetText|
    }

    /**
     * The page before any text is loaded. The script sets no accuracy at
     * start-up; the displayed starting value comes from the page markup,
     * which is not part of this model. It is taken as 100, the value
     * `resetGame` shows for a fresh text.
     */
    constructor ()
      ensures Valid()
      ensures targetText == [] && !inProgress && accuracyShown == 100.0
    {
      targetText := [];
      spans := new Mark[0];
      inProgress := false;
      accuracyShown := 100.0;
    }

    /**
     * `resetGame` once the text has arrived: the game stops, accuracy shows
     * 100 and the new target is laid out as fresh spans, all unmarked.
     */
    method LoadText(text: string)
      modifies this
      ensures Valid() && fresh(spans)
      ensures targetText == Utf16(text) && !inProgress && accuracyShown == 100.0
      ensures spans[..] == Marks(Utf16(text), [])
    {
      inProgress := false;
      accuracyShown := 100.0;
      targetText := Utf16(text);
      spans := new Mark[|targetText|](_ => Untyped);
    }

    /** `startGame`: no game starts on an empty target. */
    method Start()
      requires Valid()
      modifies this
      ensures Valid()
      ensures inProgress == (old(inProgress) || |targetText| > 0)
      ensures targetText == old(targetText) && spans == old(spans) && accuracyShown == old(accuracyShown)
    {
      if |targetText| == 0 {
        return;
      }
      inProgress := true;
    }

    /**
     * The `input` handler: outside a game nothing changes. During one every
     * span gets its mark, the accuracy is recomputed and, on an exact match,
     * the game ends.
     */
    method OnInput(value: string) returns (outcome: InputOutcome)
      requires Valid()
      modifies this, spans
      ensures Valid() && spans == old(spans) && targetText == old(targetText)
      ensures !old(inProgress) ==>
                && outcome == Ignored && !inProgress
                && spans[..] == old(spans[..]) && accuracyShown == old(accuracyShown)
      ensures old(inProgress) ==>
                && outcome == Scored(CorrectCount(targetText, Utf16(value)),
                                     Accuracy(CorrectCount(targetText, Utf16(value)), |Utf16(value)|),
                                     Utf16(value) == targetText)
                && spans[..] == Marks(targetText, Utf16(value))
                && accuracyShown == outcome.accuracy
                && inProgress == (Utf16(value) != targetText)
    {
      if !inProgress {
        return Ignored;
      }
      var typed := Utf16(value);
      var correct := MarkSpans(typed);
      accuracyShown := Accuracy(correct, |typed|);
      GameEndsIffExact(targetText, typed);
      var ended := |typed| == |targetText| && correct == |targetText|;
      if ended {
        inProgress := false;
      }
      outcome := Scored(correct, accuracyShown, ended);
    }

    /** The loop over the spans: each gets its mark and `correctCount` counts the correct ones. */
    method MarkSpans(typed: seq<CodeUnit>) returns (correct: nat)
      requires Valid()
      modifies spans
      ensures spans[..] == Marks(targetText, typed)
      ensures correct == CorrectCount(targetText, typed)
    {
      correct := 0;
      var i := 0;
      while i < spans.Length
        invariant 0 <= i <= spans.Length
        invariant correct == CorrectIn(targetText, typed, i)
        invariant forall k :: 0 <= k < i ==> spans[k] == MarkAt(targetText, typed, k)
      {
        if i >= |typed| {
          spans[i] := Untyped;
        } else if typed[i] == targetText[i] {
          spans[i] := Correct;
          correct := correct + 1;
        } else {
          spans[i] := Incorrect;
        }
        i := i + 1;
      }
    }
  }

  /**
   * `value.trim().split(' ').length`: the pieces between single spaces, at
   * least one. Counted over characters: the space and every whitespace
   * character `trim` drops lie below U+10000, so over code units the count
   * is the same.
   */
  function Words(input: string): (n: nat)
    ensures n >= 1 && n == Count(Trim(input), ' ') + 1
  {
    |Split(Trim(input), ' ')|
  }

  /**
   * `calculateWPM(seconds)`: nothing at 0 seconds, otherwise
   * `words / seconds * 60`, which is never 0 since there is always a word.
   */
  function CalculateWpm(seconds: nat, input: string): (r: Option<real>)
    ensures r.None? <==> seconds == 0
    ensures r.Some? ==> r.value > 0.0 && r.value == 60.0 * Words(input) as real / seconds as real
  {
    if seconds == 0 then None
    else
      Some(PerMinute(Words(input), seconds))
  }

  /** `words / seconds * 60`: positive, and `60 * words` once multiplied back by `seconds`. */
  function PerMinute(words: nat, seconds: nat): (x: real)
    requires words >= 1 && seconds >= 1
    ensures x > 0.0 && x == 60.0 * words as real / seconds as real
    ensures x * seconds as real == 60.0 * words as real
  {
    var q := words as real / seconds as real;
    assert q * seconds as real == words as real;
    assert (q * 60.0) * seconds as real == 60.0 * (q * seconds as real);
    q * 60.0
  }

  /** The last piece of a join is the joined string's suffix. */
  lemma {:induction false} JoinEndsWithLast(pieces: seq<string>, sep: char)
    requires |pieces| >= 1
    ensures var j := Join(pieces, sep); var l := pieces[|pieces| - 1];
      |l| <= |j| && j[|j| - |l|..] == l
  {
    if |pieces| > 1 {
      JoinEndsWithLast(pieces[1..], sep);
    }
  }

  /**
   * For a sentence of non-empty words without whitespace, joined by single
   * spaces, `Words` is the number of words.
   */
  lemma WordsOfSentence(words: seq<string>)
    requires |words| >= 1
    requires forall k :: 0 <= k < |words| ==> |words[k]| > 0
    requires forall k, i :: 0 <= k < |words| && 0 <= i < |words[k]| ==> !IsJsWhitespace(words[k][i])
    ensures Words(Join(words, ' ')) == |words|
  {
    var s := Join(words, ' ');
    var l := words[|words| - 1];
    JoinEndsWithLast(words, ' ');
    assert s[0] == words[0][0];
    assert s[|s| - 1] == l[|l| - 1] by {
      assert s[|s| - |l|..][|l| - 1] == l[|l| - 1];
    }
    TrimOfTrimmed(s);
    SplitOfJoin(words, ' ');
  }

  /** One row of the leaderboard table. */
  datatype Row = Row(rank: nat, username: string, avgSpeed: real)

  /** The leaderboard view: a "no data" message or a table of rows. */
  datatype View = NoData | Table(rows: seq<Row>)

  /** `fetchLeaderboard`: the rows in the order received, ranked from 1. */
  function RenderLeaderboard(data: seq<Entry>): (v: View)
    ensures v.NoData? <==> |data| == 0
    ensures v.Table? ==> |v.rows| == |data|
    ensures v.Table? ==> forall i :: 0 <= i < |data| ==>
              v.rows[i] == Row(i + 1, data[i].username, data[i].avgSpeed)
  {
    if |data| == 0 then NoData
    else Table(seq(|data|, i requires 0 <= i < |data| => Row(i + 1, data[i].username, data[i].avgSpeed)))
  }

  /** Rows rendered from a list sorted by descending positive average, at most ten long. */
  lemma RowsOfTopList(data: seq<Entry>)
    requires |data| <= LeaderboardLimit && SortedDesc(data)
    requires forall e :: e in data ==> e.avgSpeed > 0.0
    ensures var v := RenderLeaderboard(data);
      v.Table? ==>
        && |v.rows| <= LeaderboardLimit
        && (forall i :: 0 <= i < |v.rows| ==> v.rows[i].rank == i + 1 && v.rows[i].avgSpeed > 0.0)
        && (forall i, j :: 0 <= i < j < |v.rows| ==> v.rows[i].avgSpeed >= v.rows[j].avgSpeed)
  {
    var v := RenderLeaderboard(data);
    if v.Table? {
      forall i | 0 <= i < |v.rows|
        ensures v.rows[i].avgSpeed > 0.0
      {
        assert data[i] in data;
      }
    }
  }

  /**
   * What the page shows for a tier's leaderboard: at most ten rows ranked
   * 1, 2, ..., a better rank never has a lower average, and every listed
   * average is positive.
   */
  lemma RanksFollowAverages(users: seq<User>, t: Tier)
    ensures var v := RenderLeaderboard(Leaderboard(users, Name(t)).entries);
      v.Table? ==>
        && |v.rows| <= LeaderboardLimit
        && (forall i :: 0 <= i < |v.rows| ==> v.rows[i].rank == i + 1 && v.rows[i].avgSpeed > 0.0)
        && (forall i, j :: 0 <= i < j < |v.rows| ==> v.rows[i].avgSpeed >= v.rows[j].avgSpeed)
  {
    var b := Leaderboard(users, Name(t));
    TierBoard(users, t);
    RowsOfTopList(b.entries);
  }
}
