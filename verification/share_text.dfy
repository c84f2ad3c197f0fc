/** `formatShareText` of `lib/utils/share-text.ts`: the text a player copies
    after a game, one emoji row per attempt in the manner of Wordle. The
    application URL, read from the environment, is a parameter. */
module ShareText {
  import opened Wrappers
  import opened Strings
  import opened GameConfig
  import opened Submit

  /** `EMOJI`: green square, blue square, orange square. */
  function Emoji(f: Feedback): (c: char) {
    match f
    case Exact => '\U{1F7E9}'
    case High => '\U{1F7E6}'
    case Low => '\U{1F7E7}'
  }

  /** Reading an emoji back. */
  function FeedbackOfEmoji(c: char): Option<Feedback> {
    if c == '\U{1F7E9}' then Some(Exact)
    else if c == '\U{1F7E6}' then Some(High)
    else if c == '\U{1F7E7}' then Some(Low)
    else None
  }

  lemma EmojiRoundTrip(f: Feedback)
    ensures FeedbackOfEmoji(Emoji(f)) == Some(f)
    ensures Emoji(f) != '\n'
  {
  }

  /** `byPosition[p] ?? "exact"`, where `byPosition` is built by
      `Object.fromEntries` and so keeps the last guess at each position. */
  function FeedbackAt(guesses: seq<Marked>, p: int): (f: Feedback)
    ensures || ((forall i :: 0 <= i < |guesses| ==> guesses[i].position != p) && f == Exact)
            || exists i :: && 0 <= i < |guesses| && guesses[i].position == p && f == guesses[i].feedback
                           && forall j :: i < j < |guesses| ==> guesses[j].position != p
  {
    if guesses == [] then Exact
    else
      var last := guesses[|guesses| - 1];
      if last.position == p then last.feedback
      else
        var f := FeedbackAt(guesses[..|guesses| - 1], p);
        assert forall i :: 0 <= i < |guesses| - 1 ==> guesses[..|guesses| - 1][i] == guesses[i];
        f
  }

  /** `orderedPositions.map((p) => EMOJI[…]).join("")`. */
  function EmojiRow(a: Attempt): (row: string)
    ensures |row| == 4
  {
    [Emoji(FeedbackAt(a.guesses, 1)), Emoji(FeedbackAt(a.guesses, 2)),
     Emoji(FeedbackAt(a.guesses, 3)), Emoji(FeedbackAt(a.guesses, 4))]
  }

  /** A row read back gives the feedback at positions 1 to 4, in order. */
  lemma EmojiRowDecodes(a: Attempt)
    ensures forall k :: 0 <= k < 4 ==> FeedbackOfEmoji(EmojiRow(a)[k]) == Some(FeedbackAt(a.guesses, k + 1))
    ensures '\n' !in EmojiRow(a)
  {
    var row := EmojiRow(a);
    forall k | 0 <= k < 4 ensures FeedbackOfEmoji(row[k]) == Some(FeedbackAt(a.guesses, k + 1)) && row[k] != '\n' {
      EmojiRoundTrip(FeedbackAt(a.guesses, k + 1));
    }
  }

  const DEFAULT_APP_URL: string := "https://holdemle.vercel.app"

  /** `process.env.NEXT_PUBLIC_APP_URL || "https://holdemle.vercel.app"`. */
  function AppUrl(env: Option<string>): (url: string)
    ensures env.None? || env == Some("") ==> url == DEFAULT_APP_URL
  {
    if env.GetOr("") == [] then DEFAULT_APP_URL else env.value
  }

  function Rows(history: seq<Attempt>): (rows: seq<string>)
    ensures |rows| == |history| && forall i :: 0 <= i < |history| ==> rows[i] == EmojiRow(history[i])
  {
    seq(|history|, i requires 0 <= i < |history| => EmojiRow(history[i]))
  }

  /** `I ${isSolved ? "Won" : "Lost"}, using ${guessesUsed}/${MAX_GUESSES} guesses.` */
  function ResultLine(isSolved: bool, guessesUsed: int): string {
    "I " + (if isSolved then "Won" else "Lost") + ", using " + IntToString(guessesUsed) + "/"
      + IntToString(MAX_GUESSES) + " guesses."
  }

  function VisitLine(url: string): string {
    "Visit " + url + "/ for daily poker puzzles!"
  }

  /** The array `lines`. */
  function ShareLines(history: seq<Attempt>, date: string, isSolved: bool, guessesUsed: int,
                      env: Option<string>): seq<string> {
    ["Hold'emle", date, ResultLine(isSolved, guessesUsed)] + Rows(history) + ["", VisitLine(AppUrl(env))]
  }

  /** `formatShareText(guessHistory, date, isSolved, guessesUsed)`. */
  function FormatShareText(history: seq<Attempt>, date: string, isSolved: bool, guessesUsed: int,
                           env: Option<string>): string {
    Join(ShareLines(history, date, isSolved, guessesUsed, env), "\n")
  }

  lemma NoNewlineInNumber(n: int)
    ensures '\n' !in IntToString(n)
  {
    NatToStringValue(if n < 0 then -n else n);
    DigitPrefixAllDigits(NatToString(if n < 0 then -n else n));
  }

  /** The result line names the outcome and the guesses out of three, on
      one line. */
  lemma ResultLineShape(isSolved: bool, guessesUsed: int)
    ensures ResultLine(isSolved, guessesUsed)
            == "I " + (if isSolved then "Won" else "Lost") + ", using " + IntToString(guessesUsed) + "/3 guesses."
    ensures '\n' !in ResultLine(isSolved, guessesUsed)
  {
    MaxGuessesText();
    NoNewlineInNumber(guessesUsed);
  }

  lemma MaxGuessesText()
    ensures IntToString(MAX_GUESSES) == "3"
  {
    assert NatToString(3) == [DigitChar(3)];
  }

  /** When neither the date nor the URL holds a line break, the text splits
      back into 3 + |history| + 2 lines: the title, the date and the result
      line (`ResultLineShape`), one row of four emoji per attempt in order, an empty line and
      the link. `EmojiRowDecodes` reads each row back. */
  lemma ShareTextLines(history: seq<Attempt>, date: string, isSolved: bool, guessesUsed: int,
                       env: Option<string>)
    requires '\n' !in date && '\n' !in AppUrl(env)
    ensures var lines := Split(FormatShareText(history, date, isSolved, guessesUsed, env), '\n');
            && |lines| == 3 + |history| + 2
            && lines[0] == "Hold'emle" && lines[1] == date
            && lines[2] == ResultLine(isSolved, guessesUsed)
            && (forall i :: 3 <= i < 3 + |history| ==> lines[i] == EmojiRow(history[i - 3]))
            && lines[3 + |history|] == ""
            && lines[4 + |history|] == VisitLine(AppUrl(env))
  {
    ShareLinesUnbroken(history, date, isSolved, guessesUsed, env);
    SplitJoin(ShareLines(history, date, isSolved, guessesUsed, env), '\n');
  }

  lemma ShareLinesUnbroken(history: seq<Attempt>, date: string, isSolved: bool, guessesUsed: int,
                           env: Option<string>)
    requires '\n' !in date && '\n' !in AppUrl(env)
    ensures var lines := ShareLines(history, date, isSolved, guessesUsed, env);
            forall i :: 0 <= i < |lines| ==> '\n' !in lines[i]
  {
    var head := ["Hold'emle", date, ResultLine(isSolved, guessesUsed)];
    var rows := Rows(history);
    var tail := ["", VisitLine(AppUrl(env))];
    assert NoBreaks(head) by {
      ResultLineShape(isSolved, guessesUsed);
      assert '\n' !in "Hold'emle";
    }
    assert NoBreaks(rows) by {
      forall i | 0 <= i < |rows| ensures '\n' !in rows[i] {
        EmojiRowDecodes(history[i]);
      }
    }
    assert NoBreaks(tail) by {
      VisitLineUnbroken(AppUrl(env));
    }
    NoBreaksConcat(head, rows);
    NoBreaksConcat(head + rows, tail);
  }

  /** No line holds a line break. */
  ghost predicate NoBreaks(lines: seq<string>) {
    forall i :: 0 <= i < |lines| ==> '\n' !in lines[i]
  }

  lemma NoBreaksConcat(a: seq<string>, b: seq<string>)
    requires NoBreaks(a) && NoBreaks(b)
    ensures NoBreaks(a + b)
  {
    forall i | 0 <= i < |a + b| ensures '\n' !in (a + b)[i] {
      if i >= |a| {
        assert (a + b)[i] == b[i - |a|];
      }
    }
  }

  lemma VisitLineUnbroken(url: string)
    requires '\n' !in url
    ensures '\n' !in VisitLine(url)
  {
    var pre := "Visit ";
    var post := "/ for daily poker puzzles!";
    assert '\n' !in pre && '\n' !in post;
    assert VisitLine(url) == pre + url + post;
  }

  /** A missing position shows as exact, and of two guesses at one position
      the later one counts. */
  lemma MissingAndRepeatedPositions()
    ensures EmojiRow(Attempt(1, [])) == "\U{1F7E9}\U{1F7E9}\U{1F7E9}\U{1F7E9}"
    ensures EmojiRow(Attempt(1, [Marked(2, 40.0, Low), Marked(2, 30.0, High)]))
            == "\U{1F7E9}\U{1F7E6}\U{1F7E9}\U{1F7E9}"
  {
  }

  /** The row of a guess high, exact, low, low. */
  lemma ShareRowExample()
    ensures EmojiRow(Attempt(1, [Marked(1, 30.0, High), Marked(2, 38.0, Exact), Marked(3, 17.0, Low),
                                 Marked(4, 15.0, Low)]))
            == "\U{1F7E6}\U{1F7E9}\U{1F7E7}\U{1F7E7}"
  {
    var gs := [Marked(1, 30.0, High), Marked(2, 38.0, Exact), Marked(3, 17.0, Low), Marked(4, 15.0, Low)];
    assert gs[..3] == [gs[0], gs[1], gs[2]];
    assert gs[..3][..2] == [gs[0], gs[1]];
    assert gs[..3][..2][..1] == [gs[0]];
    assert FeedbackAt(gs, 1) == High;
    assert FeedbackAt(gs, 2) == Exact;
  }
}
