/** The quiz flow controller (js/app.js): four screens, the session counters
    of the quiz in progress, the elapsed-time counter, and the pure helpers
    that turn scores into percentages, clock text and feedback bands. */
module QuizApp {
  import opened Rounding
  import opened Decimal
  import opened QuizData

  // ---------------------------------------------------------------------
  // Score

  /** The percentage of correct answers in a session, 0 when nothing was
      answered. */
  function ScorePercentage(correct: nat, incorrect: nat): (r: nat)
    ensures r <= 100
    ensures correct + incorrect == 0 ==> r == 0
    ensures correct + incorrect > 0 ==>
      var n := correct + incorrect;
      2 * n * r <= 200 * correct + n < 2 * n * (r + 1)
  {
    var total := correct + incorrect;
    if total > 0 then Percent(correct, total) else 0
  }

  /** Two correct answers out of three score 67%; one out of eight is 12.5%
      and a half rounds up, to 13%; an empty session scores 0. */
  lemma ScoreExamples()
    ensures ScorePercentage(2, 1) == 67
    ensures ScorePercentage(0, 0) == 0
    ensures ScorePercentage(1, 1) == 50
    ensures ScorePercentage(1, 7) == 13
  {
    RoundDivUnique(200, 3, 67);
    RoundDivUnique(100, 2, 50);
    RoundDivUnique(100, 8, 13);
  }

  /** With the number of answers fixed, more correct answers never score
      less. */
  lemma ScoreMonotone(c1: nat, i1: nat, c2: nat, i2: nat)
    requires c1 + i1 == c2 + i2 && c1 <= c2
    ensures ScorePercentage(c1, i1) <= ScorePercentage(c2, i2)
  {
    if c1 + i1 > 0 {
      PercentMonotone(c1, c2, c1 + i1);
    }
  }

  // ---------------------------------------------------------------------
  // Feedback bands

  /** The six messages of the end-of-quiz analysis. */
  datatype Analysis = Excellent | VeryGood | Good | Fair | Attention | NeedsStudy

  function AnalysisFor(score: int): (a: Analysis)
    ensures a == Excellent <==> 90 <= score
    ensures a == VeryGood <==> 80 <= score < 90
    ensures a == Good <==> 70 <= score < 80
    ensures a == Fair <==> 60 <= score < 70
    ensures a == Attention <==> 40 <= score < 60
    ensures a == NeedsStudy <==> score < 40
  {
    if score >= 90 then Excellent
    else if score >= 80 then VeryGood
    else if score >= 70 then Good
    else if score >= 60 then Fair
    else if score >= 40 then Attention
    else NeedsStudy
  }

  /** The position of a message from worst (0) to best (5). */
  function AnalysisRank(a: Analysis): nat {
    match a
    case NeedsStudy => 0
    case Attention => 1
    case Fair => 2
    case Good => 3
    case VeryGood => 4
    case Excellent => 5
  }

  /** A higher score never gets a worse message. */
  lemma AnalysisMonotone(s1: int, s2: int)
    requires s1 <= s2
    ensures AnalysisRank(AnalysisFor(s1)) <= AnalysisRank(AnalysisFor(s2))
  {
  }

  /** The three colours of a module's progress badge and of the overall
      progress bar (`bg-success`, `bg-warning`, `bg-primary`). */
  datatype Badge = Success | Warning | Primary

  function BadgeFor(progress: int): (b: Badge)
    ensures b == Success <==> 80 <= progress
    ensures b == Warning <==> 40 <= progress < 80
    ensures b == Primary <==> progress < 40
  {
    if progress >= 80 then Success
    else if progress >= 40 then Warning
    else Primary
  }

  /** The four border colours of the score circle on the results screen. */
  datatype Circle = Green | Yellow | Orange | Red

  function CircleFor(score: int): (c: Circle)
    ensures c == Green <==> 80 <= score
    ensures c == Yellow <==> 60 <= score < 80
    ensures c == Orange <==> 40 <= score < 60
    ensures c == Red <==> score < 40
  {
    if score >= 80 then Green
    else if score >= 60 then Yellow
    else if score >= 40 then Orange
    else Red
  }

  /** The three bandings nest: the analysis message determines the circle
      colour, and the circle colour determines the badge colour. */
  lemma BandingsNest(score: int)
    ensures CircleFor(score) == match AnalysisFor(score)
      case Excellent | VeryGood => Green
      case Good | Fair => Yellow
      case Attention => Orange
      case NeedsStudy => Red
    ensures BadgeFor(score) == match CircleFor(score)
      case Green => Success
      case Yellow | Orange => Warning
      case Red => Primary
  {
  }

  /** ... but they are distinct: scores that share a badge colour can get
      different circle colours, and scores that share a circle colour can get
      different messages. */
  lemma BandingsDiffer()
    ensures BadgeFor(50) == BadgeFor(70) && CircleFor(50) != CircleFor(70)
    ensures CircleFor(85) == CircleFor(95) && AnalysisFor(85) != AnalysisFor(95)
  {
  }

  // ---------------------------------------------------------------------
  // Elapsed time

  /** `n.toString().padStart(2, '0')`: at least two digits, exactly two below
      100, reading back as `n`, and a zero is only ever added in front of a
      single digit. */
  function TwoDigits(n: nat): (r: string)
    ensures |r| >= 2 && AllDigits(r) && ParseDecimal(r) == n
    ensures n < 100 ==> |r| == 2
    ensures |r| > 2 ==> r[0] != '0'
  {
    NatToStringBelow100(n);
    PadStartZeroValue(NatToString(n), 2);
    ParseNatToString(n);
    PadStart(NatToString(n), 2, '0')
  }

  /** Division by 60 has one quotient and one remainder. */
  lemma DivMod60Unique(n: nat, q: nat, r: nat)
    requires r < 60 && n == q * 60 + r
    ensures q == n / 60 && r == n % 60
  {
  }

  lemma DivMod60(seconds: nat)
    ensures seconds % 60 < 60 && seconds == seconds / 60 * 60 + seconds % 60
  {
  }

  /** Where the fields of `mm:ss` text sit. */
  lemma ClockFieldsAt(mm: string, ss: string)
    requires |ss| == 2
    ensures var t := mm + ":" + ss;
      |t| >= 3 && t[|t| - 3] == ':' && t[..|t| - 3] == mm && t[|t| - 2..] == ss
  {
  }

  /** `MM:SS` text: digits, a colon, then exactly two digits. */
  predicate IsClock(t: string) {
    |t| >= 3 && t[|t| - 3] == ':' && AllDigits(t[..|t| - 3]) && AllDigits(t[|t| - 2..])
  }

  /** Reads `MM:SS` text back as a number of seconds. */
  function ClockSeconds(t: string): nat
    requires IsClock(t)
  {
    ParseDecimal(t[..|t| - 3]) * 60 + ParseDecimal(t[|t| - 2..])
  }

  /** Digit fields joined by a colon read back as the minutes and seconds
      they spell. */
  lemma ClockJoin(mm: string, ss: string, minutes: nat, secs: nat)
    requires AllDigits(mm) && AllDigits(ss) && |ss| == 2
    requires ParseDecimal(mm) == minutes && ParseDecimal(ss) == secs
    ensures IsClock(mm + ":" + ss) && ClockSeconds(mm + ":" + ss) == minutes * 60 + secs
  {
    ClockFieldsAt(mm, ss);
  }

  /** `mm:ss` text for whole minutes and the seconds left over. */
  function Clock(minutes: nat, secs: nat): (t: string)
    requires secs < 60
    ensures IsClock(t) && |t| >= 5 && (minutes < 100 ==> |t| == 5)
    ensures |t| > 5 ==> t[0] != '0'
    ensures ParseDecimal(t[..|t| - 3]) == minutes && ParseDecimal(t[|t| - 2..]) == secs
    ensures ClockSeconds(t) == minutes * 60 + secs
  {
    var mm := TwoDigits(minutes);
    var ss := TwoDigits(secs);
    ClockFieldsAt(mm, ss);
    ClockJoin(mm, ss, minutes, secs);
    mm + ":" + ss
  }

  /** `MM:SS` for an elapsed number of seconds: the seconds below 60 after
      the colon, always two digits, and the whole minutes before it,
      zero-padded to two digits and never wrapped into hours; the text reads
      back as the number it was made from. */
  function FormatTime(seconds: nat): (t: string)
    ensures IsClock(t) && |t| >= 5 && (seconds < 6000 ==> |t| == 5)
    ensures |t| > 5 ==> t[0] != '0'
    ensures ParseDecimal(t[|t| - 2..]) < 60
    ensures ClockSeconds(t) == seconds
  {
    DivMod60(seconds);
    Clock(seconds / 60, seconds % 60)
  }

  /** In `MM:SS` text whose seconds field is below 60, the fields are the
      whole minutes and the remaining seconds of the time it reads as; so
      the fields of `FormatTime(s)` read `s / 60` and `s % 60`. */
  lemma ClockFields(t: string)
    requires IsClock(t) && ParseDecimal(t[|t| - 2..]) < 60
    ensures ParseDecimal(t[..|t| - 3]) == ClockSeconds(t) / 60
    ensures ParseDecimal(t[|t| - 2..]) == ClockSeconds(t) % 60
  {
    DivMod60Unique(ClockSeconds(t), ParseDecimal(t[..|t| - 3]), ParseDecimal(t[|t| - 2..]));
  }

  /** Distinct elapsed times are shown as distinct text. */
  lemma FormatTimeInjective(a: nat, b: nat)
    requires FormatTime(a) == FormatTime(b)
    ensures a == b
  {
  }

  /** Zero padding to two digits. */
  lemma TwoDigitsPadsOneDigit()
    ensures TwoDigits(3) == "03"
  {
    assert PadStart("3", 2, '0') == PadStart("03", 2, '0');
  }

  /** A two-digit number is shown as is. */
  lemma TwoDigitsKeepsTwoDigits()
    ensures TwoDigits(75) == "75"
  {
    assert NatToString(75) == "75" by {
      assert NatToString(7) == "7";
    }
  }

  // ---------------------------------------------------------------------
  // User name

  /** The characters `String.prototype.trim` removes: the white space and
      line terminators of ECMAScript. */
  predicate IsJsWhitespace(c: char) {
    || c == '\t' || c == '\n' || c == '\U{000B}' || c == '\U{000C}' || c == '\r' || c == ' '
    || c == '\U{00A0}' || c == '\U{1680}' || ('\U{2000}' <= c <= '\U{200A}')
    || c == '\U{2028}' || c == '\U{2029}' || c == '\U{202F}' || c == '\U{205F}'
    || c == '\U{3000}' || c == '\U{FEFF}'
  }

  /** The first index at or after `i` whose character is not white space
      (`|s|` when there is none). */
  function SkipWhitespace(s: string, i: nat): (n: nat)
    requires i <= |s|
    ensures i <= n <= |s|
    ensures forall j :: i <= j < n ==> IsJsWhitespace(s[j])
    ensures n < |s| ==> !IsJsWhitespace(s[n])
    decreases |s| - i
  {
    if i < |s| && IsJsWhitespace(s[i]) then SkipWhitespace(s, i + 1) else i
  }

  /** The end of `s[lo..hi]` once its trailing white space is dropped. */
  function BackOverWhitespace(s: string, lo: nat, hi: nat): (n: nat)
    requires lo <= hi <= |s|
    ensures lo <= n <= hi
    ensures forall j :: n <= j < hi ==> IsJsWhitespace(s[j])
    ensures lo < n ==> !IsJsWhitespace(s[n - 1])
  {
    if lo < hi && IsJsWhitespace(s[hi - 1]) then BackOverWhitespace(s, lo, hi - 1) else hi
  }

  /** `s.trim()`: `s` without its leading and trailing white space. What is
      left is the slice of `s` that starts at its first character that is not
      white space; everything before and after that slice is white space, the
      slice neither starts nor ends with white space, and it is empty exactly
      when `s` is all white space. */
  function Trim(s: string): (r: string)
    ensures var a := SkipWhitespace(s, 0);
      && a + |r| <= |s| && r == s[a..a + |r|]
      && (forall i :: 0 <= i < a ==> IsJsWhitespace(s[i]))
      && (forall i :: a + |r| <= i < |s| ==> IsJsWhitespace(s[i]))
    ensures r == [] <==> forall i :: 0 <= i < |s| ==> IsJsWhitespace(s[i])
    ensures r != [] ==> !IsJsWhitespace(r[0]) && !IsJsWhitespace(r[|r| - 1])
  {
    var a := SkipWhitespace(s, 0);
    s[a..BackOverWhitespace(s, a, |s|)]
  }

  /** Trimming twice is trimming once. */
  lemma TrimIdempotent(s: string)
    ensures Trim(Trim(s)) == Trim(s)
  {
    var r := Trim(s);
    if r != [] {
      assert SkipWhitespace(r, 0) == 0;
      assert BackOverWhitespace(r, 0, |r|) == |r|;
      assert r[0..|r|] == r;
    }
  }

  // ---------------------------------------------------------------------
  // The session

  datatype Screen = Login | ModuleSelection | InQuiz | Results

  /** The controller's variables, gathered to state what a transition
      changes and what it leaves alone. */
  datatype SessionState = SessionState(
    screen: Screen,
    currentUser: string,
    currentModule: ModuleId,
    currentQuestions: seq<Question>,
    currentQuestionIndex: nat,
    correctAnswers: nat,
    incorrectAnswers: nat,
    quizSeconds: nat,
    timerRunning: bool,
    answered: bool)

  /** The module-level variables of js/app.js, the screen on display, and
      the store they read and write. */
  class Session {
    const store: Store
    var screen: Screen
    var currentUser: string
    var currentModule: ModuleId
    var currentQuestions: seq<Question>
    var currentQuestionIndex: nat
    var correctAnswers: nat
    var incorrectAnswers: nat
    var quizSeconds: nat
    /** Whether the one-second interval timer is installed. */
    var timerRunning: bool
    /** Whether the options of the question on display are disabled, which
        they are once it has been answered. */
    var answered: bool

    ghost function State(): SessionState
      reads this
    {
      SessionState(screen, currentUser, currentModule, currentQuestions, currentQuestionIndex,
                   correctAnswers, incorrectAnswers, quizSeconds, timerRunning, answered)
    }

    /** The timer runs exactly while a quiz is on screen; a quiz on screen
        shows an existing question; each question is answered at most once;
        the results screen comes after the last question. */
    ghost predicate Valid()
      reads this
    {
      && (timerRunning <==> screen == InQuiz)
      && (screen == InQuiz ==>
            && currentQuestionIndex < |currentQuestions|
            && correctAnswers + incorrectAnswers <= currentQuestionIndex + (if answered then 1 else 0))
      && (screen == Results ==>
            && currentQuestionIndex == |currentQuestions|
            && correctAnswers + incorrectAnswers <= currentQuestionIndex)
    }

    /** The score shown on the results screen. */
    function Score(): (r: nat)
      reads this
      ensures r <= 100
    {
      ScorePercentage(correctAnswers, incorrectAnswers)
    }

    constructor (store: Store)
      ensures this.store == store && Valid()
      ensures State() == SessionState(Login, "", "", [], 0, 0, 0, 0, false, false)
    {
      this.store := store;
      screen := Login;
      currentUser := "";
      currentModule := "";
      currentQuestions := [];
      currentQuestionIndex := 0;
      correctAnswers := 0;
      incorrectAnswers := 0;
      quizSeconds := 0;
      timerRunning := false;
      answered := false;
    }

    /** Start-up: loads the question lists (`fetched` holds the modules whose
        file could be read), then the stored record; a stored record that
        passes the structure check logs its user straight in and replaces the
        record, placeholders included. Without one, the record keeps its user
        name and session time and only gains the placeholders. */
    method Init(fetched: map<ModuleId, seq<Question>>)
      requires Valid() && screen == Login
      modifies this, store
      ensures Valid()
      ensures forall m :: m in store.modules ==>
        m in store.questionsData && store.questionsData[m] == if m in fetched then fetched[m] else []
      ensures StoredRecord(old(store.storage)).Some? ==>
        && store.user == StoredRecord(old(store.storage)).value
        && State() == old(State()).(screen := ModuleSelection, currentUser := store.user.username)
      ensures StoredRecord(old(store.storage)).None? ==>
        && State() == old(State())
        && store.user == old(store.user).(progress :=
             LoadedProgress(WithModuleMaps(old(store.user.progress), store.modules), store.modules, fetched))
      ensures store.questionsData.Keys == old(store.questionsData).Keys + set m | m in store.modules
      ensures forall m :: m in old(store.questionsData) && m !in store.modules ==>
        store.questionsData[m] == old(store.questionsData)[m]
      ensures store.storage == old(store.storage)
    {
      store.LoadAllQuestions(fetched);
      var loaded := store.LoadUserData();
      if loaded {
        currentUser := store.GetUsername();
        screen := ModuleSelection;
      } else {
        screen := Login;
      }
    }

    /** Logs in under the trimmed name when it is not empty, saving it;
        otherwise nothing happens. */
    method HandleLogin(input: string, now: Timestamp)
      requires Valid() && screen == Login
      modifies this, store
      ensures Valid()
      ensures Trim(input) == [] ==> State() == old(State()) && unchanged(store)
      ensures Trim(input) != [] ==>
        && State() == old(State()).(screen := ModuleSelection, currentUser := Trim(input))
        && store.user == old(store.user).(username := Trim(input), lastSession := Some(now))
        && store.storage == Some(Encode(store.user))
        && store.questionsData == old(store.questionsData)
    {
      var username := Trim(input);
      if username != [] {
        currentUser := username;
        store.SetUsername(username, now);
        screen := ModuleSelection;
      }
    }

    /** Logs out after confirmation; the stored record is kept. */
    method HandleLogout(confirmed: bool)
      requires Valid() && screen == ModuleSelection
      modifies this
      ensures Valid()
      ensures State() == if confirmed then old(State()).(screen := Login, currentUser := "") else old(State())
    {
      if confirmed {
        currentUser := "";
        screen := Login;
      }
    }

    /** Starts a quiz on module `m` with its questions in file order, fresh
        counters and a fresh timer. A module without questions goes straight
        to the results screen with a score of 0. */
    method StartQuiz(m: ModuleId)
      requires Valid() && (screen == ModuleSelection || screen == Results)
      modifies this
      ensures Valid()
      ensures currentModule == m && currentQuestions == store.GetModuleQuestions(m)
      ensures currentQuestionIndex == 0 && correctAnswers == 0 && incorrectAnswers == 0
      ensures quizSeconds == 0 && currentUser == old(currentUser)
      ensures |currentQuestions| > 0 ==> screen == InQuiz && !answered
      ensures |currentQuestions| == 0 ==> screen == Results && answered == old(answered) && Score() == 0
    {
      currentModule := m;
      currentQuestions := store.GetModuleQuestions(m);
      currentQuestionIndex := 0;
      correctAnswers := 0;
      incorrectAnswers := 0;
      screen := InQuiz;
      StartTimer();
      LoadQuestion();
    }

    /** Installs the elapsed-time counter, starting from zero. The interval
        is only ever installed while none is running, so no earlier interval
        is left behind uncleared. */
    method StartTimer()
      requires !timerRunning
      modifies this
      ensures State() == old(State()).(quizSeconds := 0, timerRunning := true)
    {
      quizSeconds := 0;
      timerRunning := true;
    }

    /** One tick of the interval timer: a second more while it is installed,
        nothing once it has been cleared. */
    method Tick()
      requires Valid()
      modifies this
      ensures Valid()
      ensures State() == old(State()).(quizSeconds := old(quizSeconds) + if timerRunning then 1 else 0)
    {
      if timerRunning {
        quizSeconds := quizSeconds + 1;
      }
    }

    /** Shows the question at the current index, enabling its options, or the
        results screen (stopping the timer) once the index is past the last
        question. */
    method LoadQuestion()
      requires screen == InQuiz && timerRunning
      requires currentQuestionIndex <= |currentQuestions|
      requires correctAnswers + incorrectAnswers <= currentQuestionIndex
      modifies this
      ensures Valid()
      ensures currentQuestionIndex >= |currentQuestions| ==>
        State() == old(State()).(screen := Results, timerRunning := false)
      ensures currentQuestionIndex < |currentQuestions| ==>
        State() == old(State()).(answered := false)
    {
      if currentQuestionIndex >= |currentQuestions| {
        ShowResultsScreen();
        return;
      }
      answered := false;
    }

    method ShowResultsScreen()
      modifies this
      ensures State() == old(State()).(screen := Results, timerRunning := false)
    {
      timerRunning := false;
      screen := Results;
    }

    /** Answers the question on display with option `selected`. The first
        answer counts it as correct or incorrect, records it in the store and
        disables the options; any later click on them does nothing. */
    method HandleAnswer(selected: int, now: Timestamp)
      requires Valid() && screen == InQuiz
      requires !answered ==> currentModule in store.user.progress
      modifies this, store
      ensures Valid()
      ensures old(answered) ==> unchanged(this) && unchanged(store)
      ensures !old(answered) ==>
        var isCorrect := selected == old(currentQuestions[currentQuestionIndex]).correctIndex;
        && State() == old(State()).(
             correctAnswers := old(correctAnswers) + (if isCorrect then 1 else 0),
             incorrectAnswers := old(incorrectAnswers) + (if isCorrect then 0 else 1),
             answered := true)
        && store.user == old(store.user).(
             progress := RecordAnswer(old(store.user.progress), currentModule, currentQuestionIndex, isCorrect, now),
             lastSession := Some(now))
        && store.storage == Some(Encode(store.user))
        && store.questionsData == old(store.questionsData)
    {
      if answered {
        return;
      }
      var question := currentQuestions[currentQuestionIndex];
      var isCorrect := selected == question.correctIndex;
      if isCorrect {
        correctAnswers := correctAnswers + 1;
      } else {
        incorrectAnswers := incorrectAnswers + 1;
      }
      answered := true;
      ghost var after := State();
      store.UpdateQuestionProgress(currentModule, currentQuestionIndex, isCorrect, now);
      assert State() == after;
    }

    /** Moves to the next question, or to the results after the last one. */
    method NextQuestion()
      requires Valid() && screen == InQuiz
      modifies this
      ensures Valid()
      ensures currentQuestionIndex == old(currentQuestionIndex) + 1
      ensures currentQuestionIndex == |currentQuestions| ==>
        State() == old(State()).(currentQuestionIndex := currentQuestionIndex, screen := Results, timerRunning := false)
      ensures currentQuestionIndex < |currentQuestions| ==>
        State() == old(State()).(currentQuestionIndex := currentQuestionIndex, answered := false)
    {
      currentQuestionIndex := currentQuestionIndex + 1;
      LoadQuestion();
    }

    /** Abandons the quiz after confirmation: the timer stops and the module
        list is shown; answers already given stay recorded. */
    method QuitQuiz(confirmed: bool)
      requires Valid() && screen == InQuiz
      modifies this
      ensures Valid()
      ensures State() == if confirmed then old(State()).(screen := ModuleSelection, timerRunning := false) else old(State())
    {
      if confirmed {
        timerRunning := false;
        screen := ModuleSelection;
      }
    }

    /** Goes back from the results to the module list. */
    method ReturnToModules()
      requires Valid() && screen == Results
      modifies this
      ensures Valid()
      ensures State() == old(State()).(screen := ModuleSelection)
    {
      screen := ModuleSelection;
    }
  }
}
