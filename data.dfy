/** The progress store and question repository of the quiz (js/data.js):
    a user record whose `progress` table maps each module to the counters of
    its questions, the questions loaded for each module, and the browser's
    local storage slot that the record is saved to. */
module QuizData {
  import opened Rounding
  import opened Decimal

  datatype Option<T> = None | Some(value: T)

  type ModuleId = string
  type QuestionId = string
  /** An ISO-8601 time stamp; the clock that produces it is not modelled. */
  type Timestamp = string

  datatype QuestionType = Conteudista | Raciocinio

  /** One question as read from a module's JSON file; never changed. */
  datatype Question = Question(
    text: string,
    options: seq<string>,
    correctIndex: int,
    explanation: string,
    kind: QuestionType)

  /** The counters kept for one question. */
  datatype QuestionProgress = QuestionProgress(
    seen: nat,
    correct: nat,
    incorrect: nat,
    lastSeen: Option<Timestamp>)

  type ModuleProgressMap = map<QuestionId, QuestionProgress>
  type ProgressTable = map<ModuleId, ModuleProgressMap>
  type QuestionBank = map<ModuleId, seq<Question>>

  datatype UserRecord = UserRecord(
    username: string,
    progress: ProgressTable,
    lastSession: Option<Timestamp>)

  /** What `JSON.parse` makes of the text kept under the storage key:
      `Unparseable` when parsing throws or yields no object; otherwise the
      fields the structure check looks at, each possibly absent. */
  datatype Blob =
    | Unparseable
    | Parsed(username: Option<string>, progress: Option<ProgressTable>, lastSession: Option<Timestamp>)

  /** The placeholder written for a question never answered. */
  const Unseen := QuestionProgress(0, 0, 0, None)

  // ---------------------------------------------------------------------
  // Question identifiers

  /** The synthetic id `<module>_<index>` under which a question's counters
      are kept. */
  function QuestionKey(m: ModuleId, i: nat): QuestionId {
    m + "_" + NatToString(i)
  }

  /** The id is the module id, an underscore, and the decimal digits of the
      index, which read back as the index. */
  lemma QuestionKeyParts(m: ModuleId, i: nat)
    ensures var k := QuestionKey(m, i);
      && |k| > |m| + 1 && k[..|m|] == m && k[|m|] == '_'
      && AllDigits(k[|m| + 1..]) && ParseDecimal(k[|m| + 1..]) == i
  {
    assert QuestionKey(m, i)[|m| + 1..] == NatToString(i);
    ParseNatToString(i);
  }

  /** Within one module, distinct indices never share a progress entry. */
  lemma QuestionKeyInjective(m: ModuleId, i: nat, j: nat)
    requires QuestionKey(m, i) == QuestionKey(m, j)
    ensures i == j
  {
    QuestionKeyParts(m, i);
    QuestionKeyParts(m, j);
  }

  // ---------------------------------------------------------------------
  // Counters of one question

  /** Counters created by the store always add up: each answer is seen once
      and is either correct or incorrect. */
  predicate Consistent(p: QuestionProgress) {
    p.seen == p.correct + p.incorrect
  }

  predicate ModuleConsistent(pm: ModuleProgressMap) {
    forall k :: k in pm ==> Consistent(pm[k])
  }

  predicate TableConsistent(t: ProgressTable) {
    forall m :: m in t ==> ModuleConsistent(t[m])
  }

  /** The entry of a question, or the placeholder when it has none yet. */
  function EntryOf(pm: ModuleProgressMap, k: QuestionId): QuestionProgress {
    if k in pm then pm[k] else Unseen
  }

  /** The counters of one question after one more answer: `seen` and exactly
      one of `correct`/`incorrect` go up by one. */
  function Answered(p: QuestionProgress, isCorrect: bool, now: Timestamp): (r: QuestionProgress)
    ensures r.seen == p.seen + 1
    ensures r.correct == p.correct + (if isCorrect then 1 else 0)
    ensures r.incorrect == p.incorrect + (if isCorrect then 0 else 1)
    ensures Consistent(p) ==> Consistent(r)
    ensures r.lastSeen == Some(now)
  {
    var q := p.(seen := p.seen + 1);
    var q := if isCorrect then q.(correct := q.correct + 1) else q.(incorrect := q.incorrect + 1);
    q.(lastSeen := Some(now))
  }

  // ---------------------------------------------------------------------
  // The progress table

  /** The table after recording one answer to question `i` of module `m`:
      the question has an entry, seen once more than before (counting a
      missing entry as unseen), with the answer's counter one higher and the
      other as it was, stamped with the answer's time. */
  function RecordAnswer(t: ProgressTable, m: ModuleId, i: nat, isCorrect: bool, now: Timestamp): (r: ProgressTable)
    requires m in t
    ensures var k := QuestionKey(m, i);
      var before := EntryOf(t[m], k);
      && m in r && k in r[m]
      && r[m][k].seen == before.seen + 1
      && r[m][k].correct == before.correct + (if isCorrect then 1 else 0)
      && r[m][k].incorrect == before.incorrect + (if isCorrect then 0 else 1)
      && r[m][k].lastSeen == Some(now)
  {
    var k := QuestionKey(m, i);
    t[m := t[m][k := Answered(EntryOf(t[m], k), isCorrect, now)]]
  }

  /** Setting an entry twice leaves only the second value. */
  lemma SetTwice(pm: ModuleProgressMap, k: QuestionId, a: QuestionProgress, b: QuestionProgress)
    ensures pm[k := a][k := b] == pm[k := b]
  {
  }

  /** Setting one entry of one module changes nothing else. */
  lemma SetEntryFrame(t: ProgressTable, m: ModuleId, k: QuestionId, p: QuestionProgress)
    requires m in t
    ensures var r := t[m := t[m][k := p]];
      && r.Keys == t.Keys
      && (forall m2 :: m2 in t && m2 != m ==> r[m2] == t[m2])
      && r[m].Keys == t[m].Keys + {k}
      && (forall k2 :: k2 in t[m] && k2 != k ==> r[m][k2] == t[m][k2])
      && (TableConsistent(t) && Consistent(p) ==> TableConsistent(r))
  {
  }

  /** A consistent table has a consistent entry (or placeholder) for every key. */
  lemma EntryOfConsistent(t: ProgressTable, m: ModuleId, k: QuestionId)
    requires m in t && TableConsistent(t)
    ensures Consistent(EntryOf(t[m], k))
  {
  }

  /** Recording an answer touches one entry of one module and nothing else,
      and keeps counters that add up. */
  lemma RecordAnswerFrame(t: ProgressTable, m: ModuleId, i: nat, isCorrect: bool, now: Timestamp)
    requires m in t
    ensures var r := RecordAnswer(t, m, i, isCorrect, now);
      && r.Keys == t.Keys
      && (forall m2 :: m2 in t && m2 != m ==> r[m2] == t[m2])
      && r[m].Keys == t[m].Keys + {QuestionKey(m, i)}
      && (forall j: nat :: j != i && QuestionKey(m, j) in t[m] ==> r[m][QuestionKey(m, j)] == t[m][QuestionKey(m, j)])
      && (TableConsistent(t) ==> TableConsistent(r))
  {
    var k := QuestionKey(m, i);
    var p := Answered(EntryOf(t[m], k), isCorrect, now);
    SetEntryFrame(t, m, k, p);
    if TableConsistent(t) {
      EntryOfConsistent(t, m, k);
    }
    forall j: nat | j != i && QuestionKey(m, j) in t[m]
      ensures QuestionKey(m, j) != k
    {
      if QuestionKey(m, j) == k {
        QuestionKeyInjective(m, i, j);
      }
    }
  }

  /** A module map after the placeholder top-up for its first `n` questions,
      one index at a time in ascending order, as the source's loop does it. */
  function TopUp(pm: ModuleProgressMap, m: ModuleId, n: nat): ModuleProgressMap {
    if n == 0 then pm
    else
      var p := TopUp(pm, m, n - 1);
      var k := QuestionKey(m, n - 1);
      if k in p then p else p[k := Unseen]
  }

  ghost predicate Covers(pm: ModuleProgressMap, m: ModuleId, n: nat) {
    forall i :: 0 <= i < n ==> QuestionKey(m, i) in pm
  }

  /** After the top-up every one of the first `n` questions has an entry. */
  lemma {:induction false} TopUpCovers(pm: ModuleProgressMap, m: ModuleId, n: nat)
    ensures Covers(TopUp(pm, m, n), m, n)
  {
    if n > 0 {
      TopUpCovers(pm, m, n - 1);
    }
  }

  /** The top-up keeps every existing entry. */
  lemma {:induction false} TopUpExtends(pm: ModuleProgressMap, m: ModuleId, n: nat)
    ensures ModuleExtends(pm, TopUp(pm, m, n))
  {
    if n > 0 {
      TopUpExtends(pm, m, n - 1);
    }
  }

  /** The top-up only adds placeholders, each for one of the first `n`
      questions. */
  lemma {:induction false} TopUpAddsPlaceholders(pm: ModuleProgressMap, m: ModuleId, n: nat)
    ensures forall k :: k in TopUp(pm, m, n) && k !in pm ==>
      TopUp(pm, m, n)[k] == Unseen && exists i :: 0 <= i < n && k == QuestionKey(m, i)
  {
    if n > 0 {
      TopUpAddsPlaceholders(pm, m, n - 1);
    }
  }

  /** A map that already covers the first `n` questions is left as it is. */
  lemma {:induction false} TopUpNoop(pm: ModuleProgressMap, m: ModuleId, n: nat)
    requires Covers(pm, m, n)
    ensures TopUp(pm, m, n) == pm
  {
    if n > 0 {
      TopUpNoop(pm, m, n - 1);
    }
  }

  /** Topping up twice is the same as topping up once. */
  lemma TopUpIdempotent(pm: ModuleProgressMap, m: ModuleId, n: nat)
    ensures TopUp(TopUp(pm, m, n), m, n) == TopUp(pm, m, n)
  {
    TopUpCovers(pm, m, n);
    TopUpNoop(TopUp(pm, m, n), m, n);
  }

  /** Placeholders start with counters that add up. */
  lemma TopUpConsistent(pm: ModuleProgressMap, m: ModuleId, n: nat)
    requires ModuleConsistent(pm)
    ensures ModuleConsistent(TopUp(pm, m, n))
  {
    TopUpAddsPlaceholders(pm, m, n);
  }

  ghost predicate ModuleExtends(a: ModuleProgressMap, b: ModuleProgressMap) {
    forall k :: k in a ==> k in b && b[k] == a[k]
  }

  ghost predicate TableExtends(a: ProgressTable, b: ProgressTable) {
    forall m :: m in a ==> m in b && ModuleExtends(a[m], b[m])
  }

  lemma TableExtendsTransitive(a: ProgressTable, b: ProgressTable, c: ProgressTable)
    requires TableExtends(a, b) && TableExtends(b, c)
    ensures TableExtends(a, c)
  {
  }

  lemma CoversExtends(a: ModuleProgressMap, b: ModuleProgressMap, m: ModuleId, n: nat)
    requires Covers(a, m, n) && ModuleExtends(a, b)
    ensures Covers(b, m, n)
  {
  }

  /** Topping up one module of a table keeps every entry of the table, adds
      the module's missing placeholders and keeps counters that add up. */
  lemma TopUpTable(t: ProgressTable, m: ModuleId, n: nat)
    requires m in t
    ensures TableExtends(t, t[m := TopUp(t[m], m, n)])
    ensures Covers(TopUp(t[m], m, n), m, n)
    ensures TableConsistent(t) ==> TableConsistent(t[m := TopUp(t[m], m, n)])
  {
    var r := t[m := TopUp(t[m], m, n)];
    TopUpCovers(t[m], m, n);
    TopUpExtends(t[m], m, n);
    forall m2 | m2 in t
      ensures m2 in r && ModuleExtends(t[m2], r[m2])
    {
    }
    if TableConsistent(t) {
      TopUpConsistent(t[m], m, n);
      forall m2 | m2 in r
        ensures ModuleConsistent(r[m2])
      {
      }
    }
  }

  /** The progress table once every module of `ms` that has no map yet has
      been given an empty one, in order. */
  function WithModuleMaps(t: ProgressTable, ms: seq<ModuleId>): ProgressTable {
    if |ms| == 0 then t
    else
      var p := WithModuleMaps(t, ms[..|ms| - 1]);
      var m := ms[|ms| - 1];
      if m in p then p else p[m := map[]]
  }

  /** Giving modules empty maps adds exactly the modules of `ms` that were
      missing, each with no entry, and keeps every existing map. */
  lemma {:induction false} WithModuleMapsFacts(t: ProgressTable, ms: seq<ModuleId>)
    ensures WithModuleMaps(t, ms).Keys == t.Keys + set m | m in ms
    ensures forall m :: m in t ==> WithModuleMaps(t, ms)[m] == t[m]
    ensures forall m :: m in WithModuleMaps(t, ms) && m !in t ==> WithModuleMaps(t, ms)[m] == map[]
  {
    if |ms| > 0 {
      WithModuleMapsFacts(t, ms[..|ms| - 1]);
      assert ms == ms[..|ms| - 1] + [ms[|ms| - 1]];
    }
  }

  /** The question lists after the modules `ms` that were fetched have had
      their lists stored, in order. */
  function WithFetched(bank: QuestionBank, ms: seq<ModuleId>, fetched: map<ModuleId, seq<Question>>): QuestionBank {
    if |ms| == 0 then bank
    else
      var b := WithFetched(bank, ms[..|ms| - 1], fetched);
      var m := ms[|ms| - 1];
      if m in fetched then b[m := fetched[m]] else b
  }

  lemma {:induction false} WithFetchedAt(bank: QuestionBank, ms: seq<ModuleId>, fetched: map<ModuleId, seq<Question>>)
    ensures WithFetched(bank, ms, fetched).Keys == bank.Keys + (set m | m in ms && m in fetched)
    ensures forall m :: m in ms && m in fetched ==> WithFetched(bank, ms, fetched)[m] == fetched[m]
    ensures forall m :: m in bank && !(m in ms && m in fetched) ==> WithFetched(bank, ms, fetched)[m] == bank[m]
  {
    if |ms| > 0 {
      WithFetchedAt(bank, ms[..|ms| - 1], fetched);
      assert ms == ms[..|ms| - 1] + [ms[|ms| - 1]];
    }
  }

  /** The progress table after the modules `ms` that were fetched have been
      topped up, in order. */
  ghost function LoadedProgress(t: ProgressTable, ms: seq<ModuleId>, fetched: map<ModuleId, seq<Question>>): ProgressTable {
    if |ms| == 0 then t
    else
      var p := LoadedProgress(t, ms[..|ms| - 1], fetched);
      var m := ms[|ms| - 1];
      if m in fetched && m in p then p[m := TopUp(p[m], m, |fetched[m]|)] else p
  }

  /** Every entry of `b` that `a` lacks is a placeholder for one of the
      questions fetched for its module. */
  ghost predicate OnlyPlaceholdersAdded(a: ProgressTable, b: ProgressTable, fetched: map<ModuleId, seq<Question>>) {
    forall m, k :: m in b && k in b[m] && !(m in a && k in a[m]) ==>
      && b[m][k] == Unseen
      && m in fetched
      && exists i :: 0 <= i < |fetched[m]| && k == QuestionKey(m, i)
  }

  /** Loading keeps the modules of the table and every entry in it, adds
      nothing but placeholders for fetched questions, keeps counters that add
      up, and leaves each fetched module covered. */
  lemma {:induction false} LoadedProgressFacts(t: ProgressTable, ms: seq<ModuleId>, fetched: map<ModuleId, seq<Question>>)
    ensures LoadedProgress(t, ms, fetched).Keys == t.Keys
    ensures TableExtends(t, LoadedProgress(t, ms, fetched))
    ensures OnlyPlaceholdersAdded(t, LoadedProgress(t, ms, fetched), fetched)
    ensures TableConsistent(t) ==> TableConsistent(LoadedProgress(t, ms, fetched))
    ensures forall m :: m in ms && m in fetched && m in t ==>
      Covers(LoadedProgress(t, ms, fetched)[m], m, |fetched[m]|)
  {
    if |ms| > 0 {
      var front := ms[..|ms| - 1];
      var p := LoadedProgress(t, front, fetched);
      var r := LoadedProgress(t, ms, fetched);
      var m := ms[|ms| - 1];
      LoadedProgressFacts(t, front, fetched);
      assert ms == front + [m];
      if m in fetched && m in p {
        TopUpTable(p, m, |fetched[m]|);
        TableExtendsTransitive(t, p, r);
        TopUpAddsPlaceholders(p[m], m, |fetched[m]|);
        forall m2 | m2 in front && m2 in fetched && m2 in t
          ensures Covers(r[m2], m2, |fetched[m2]|)
        {
          CoversExtends(p[m2], r[m2], m2, |fetched[m2]|);
        }
      }
    }
  }

  /** Placeholders added after some empty maps were added are still the
      only new entries. */
  lemma PlaceholdersAfterEmptyMaps(t: ProgressTable, w: ProgressTable, r: ProgressTable, fetched: map<ModuleId, seq<Question>>)
    requires forall m :: m in t ==> m in w && w[m] == t[m]
    requires forall m :: m in w && m !in t ==> w[m] == map[]
    requires OnlyPlaceholdersAdded(w, r, fetched)
    ensures OnlyPlaceholdersAdded(t, r, fetched)
  {
    forall m, k | m in r && k in r[m] && !(m in t && k in t[m])
      ensures r[m][k] == Unseen && m in fetched
      ensures exists i :: 0 <= i < |fetched[m]| && k == QuestionKey(m, i)
    {
      assert !(m in w && k in w[m]);
    }
  }

  /** What loading does to a whole table: the configured modules `ms` are
      added with empty maps where missing and the fetched ones topped up.
      The table gains exactly the missing modules of `ms`, keeps every entry,
      and adds nothing but placeholders for fetched questions. */
  lemma LoadingFacts(t: ProgressTable, ms: seq<ModuleId>, fetched: map<ModuleId, seq<Question>>)
    ensures LoadedProgress(WithModuleMaps(t, ms), ms, fetched).Keys == t.Keys + set m | m in ms
    ensures TableExtends(t, LoadedProgress(WithModuleMaps(t, ms), ms, fetched))
    ensures OnlyPlaceholdersAdded(t, LoadedProgress(WithModuleMaps(t, ms), ms, fetched), fetched)
    ensures TableConsistent(t) ==> TableConsistent(LoadedProgress(WithModuleMaps(t, ms), ms, fetched))
    ensures forall m :: m in ms && m in fetched ==>
      var r := LoadedProgress(WithModuleMaps(t, ms), ms, fetched);
      m in r && Covers(r[m], m, |fetched[m]|)
  {
    var w := WithModuleMaps(t, ms);
    var r := LoadedProgress(w, ms, fetched);
    WithModuleMapsFacts(t, ms);
    LoadedProgressFacts(w, ms, fetched);
    assert TableExtends(t, w);
    TableExtendsTransitive(t, w, r);
    PlaceholdersAfterEmptyMaps(t, w, r, fetched);
    if TableConsistent(t) {
      assert TableConsistent(w);
    }
  }

  // ---------------------------------------------------------------------
  // Aggregation

  function QuestionsOf(bank: QuestionBank, m: ModuleId): seq<Question> {
    if m in bank then bank[m] else []
  }

  function ProgressOf(t: ProgressTable, m: ModuleId): ModuleProgressMap {
    if m in t then t[m] else map[]
  }

  /** A question counts as mastered once it has been answered correctly. */
  predicate Mastered(pm: ModuleProgressMap, k: QuestionId) {
    k in pm && pm[k].correct > 0
  }

  /** How many of the first `n` questions of module `m` are mastered. */
  function CorrectCount(pm: ModuleProgressMap, m: ModuleId, n: nat): (c: nat)
    ensures c <= n
  {
    if n == 0 then 0
    else CorrectCount(pm, m, n - 1) + (if Mastered(pm, QuestionKey(m, n - 1)) then 1 else 0)
  }

  /** The percentage of a module's questions ever answered correctly; 0 for a
      module without questions. */
  function ModuleProgress(bank: QuestionBank, t: ProgressTable, m: ModuleId): (r: nat)
    ensures r <= 100
    ensures |QuestionsOf(bank, m)| == 0 ==> r == 0
    ensures |QuestionsOf(bank, m)| > 0 ==>
      var n := |QuestionsOf(bank, m)|;
      var c := CorrectCount(ProgressOf(t, m), m, n);
      2 * n * r <= 200 * c + n < 2 * n * (r + 1)
  {
    var n := |QuestionsOf(bank, m)|;
    if n == 0 then 0 else Percent(CorrectCount(ProgressOf(t, m), m, n), n)
  }

  /** Placeholders are never mastered, so adding them leaves the mastered
      count of every prefix of a module as it was. */
  lemma {:induction false} CorrectCountWithPlaceholders(a: ModuleProgressMap, b: ModuleProgressMap, m: ModuleId, n: nat)
    requires ModuleExtends(a, b)
    requires forall k :: k in b && k !in a ==> b[k] == Unseen
    ensures CorrectCount(b, m, n) == CorrectCount(a, m, n)
  {
    if n > 0 {
      CorrectCountWithPlaceholders(a, b, m, n - 1);
    }
  }

  /** Loading placeholders changes no module's progress. */
  lemma LoadingKeepsProgress(bank: QuestionBank, a: ProgressTable, b: ProgressTable, fetched: map<ModuleId, seq<Question>>, m: ModuleId)
    requires TableExtends(a, b) && OnlyPlaceholdersAdded(a, b, fetched)
    ensures ModuleProgress(bank, b, m) == ModuleProgress(bank, a, m)
  {
    var n := |QuestionsOf(bank, m)|;
    CorrectCountWithPlaceholders(ProgressOf(a, m), ProgressOf(b, m), m, n);
  }

  /** Only the answered question can become mastered, and it does exactly
      when the answer is correct or it already was. */
  lemma MasteredAfterAnswer(t: ProgressTable, m: ModuleId, i: nat, isCorrect: bool, now: Timestamp, k: QuestionId)
    requires m in t
    ensures Mastered(RecordAnswer(t, m, i, isCorrect, now)[m], k) ==
      if k == QuestionKey(m, i) then isCorrect || Mastered(t[m], k) else Mastered(t[m], k)
  {
  }

  /** Setting the entry of question i changes the mastered count of the
      first n questions by one exactly when i is among them and the entry
      turns from not mastered to mastered (and conversely). */
  lemma {:induction false} CorrectCountAfterSet(pm: ModuleProgressMap, m: ModuleId, i: nat, p: QuestionProgress, n: nat)
    ensures var before := if Mastered(pm, QuestionKey(m, i)) then 1 else 0;
      var after := if p.correct > 0 then 1 else 0;
      CorrectCount(pm[QuestionKey(m, i) := p], m, n) + (if i < n then before else 0) ==
        CorrectCount(pm, m, n) + (if i < n then after else 0)
  {
    if n > 0 {
      var ki, k := QuestionKey(m, i), QuestionKey(m, n - 1);
      CorrectCountAfterSet(pm, m, i, p, n - 1);
      if k == ki {
        QuestionKeyInjective(m, n - 1, i);
      } else {
        assert i != n - 1;
        assert Mastered(pm[ki := p], k) == Mastered(pm, k);
      }
    }
  }

  /** One answer changes the mastered count by exactly one when it is the
      first correct answer to a question of the module, and by nothing
      otherwise; in particular an incorrect answer never changes it. */
  lemma CorrectCountAfterAnswer(
    t: ProgressTable, m: ModuleId, i: nat, isCorrect: bool, now: Timestamp, n: nat)
    requires m in t
    ensures var r := RecordAnswer(t, m, i, isCorrect, now);
      CorrectCount(r[m], m, n) ==
        CorrectCount(t[m], m, n) + (if isCorrect && i < n && !Mastered(t[m], QuestionKey(m, i)) then 1 else 0)
  {
    var k := QuestionKey(m, i);
    var p := Answered(EntryOf(t[m], k), isCorrect, now);
    CorrectCountAfterSet(t[m], m, i, p, n);
  }

  /** Module progress never drops when an answer is recorded, and an
      incorrect answer leaves every module's progress as it was. */
  lemma ModuleProgressAfterAnswer(
    bank: QuestionBank, t: ProgressTable, m: ModuleId, i: nat, isCorrect: bool, now: Timestamp, m2: ModuleId)
    requires m in t
    ensures var r := RecordAnswer(t, m, i, isCorrect, now);
      && ModuleProgress(bank, t, m2) <= ModuleProgress(bank, r, m2)
      && (!isCorrect ==> ModuleProgress(bank, r, m2) == ModuleProgress(bank, t, m2))
  {
    var r := RecordAnswer(t, m, i, isCorrect, now);
    var n := |QuestionsOf(bank, m2)|;
    if m2 == m && n > 0 {
      CorrectCountAfterAnswer(t, m, i, isCorrect, now, n);
      PercentMonotone(CorrectCount(t[m], m, n), CorrectCount(r[m], m, n), n);
    }
  }

  /** Answering a not yet mastered question correctly raises the mastered
      count of its module by exactly one. */
  lemma FirstCorrectAnswerCounts(t: ProgressTable, m: ModuleId, i: nat, now: Timestamp, n: nat)
    requires m in t && i < n && !Mastered(t[m], QuestionKey(m, i))
    ensures CorrectCount(RecordAnswer(t, m, i, true, now)[m], m, n) == CorrectCount(t[m], m, n) + 1
  {
    CorrectCountAfterAnswer(t, m, i, true, now, n);
  }

  function Sum(vs: seq<nat>): nat {
    if |vs| == 0 then 0 else Sum(vs[..|vs| - 1]) + vs[|vs| - 1]
  }

  /** The running total of the first i + 1 values. */
  lemma SumPrefix(vs: seq<nat>, i: nat)
    requires i < |vs|
    ensures Sum(vs[..i + 1]) == Sum(vs[..i]) + vs[i]
  {
    assert vs[..i + 1][..i] == vs[..i];
  }

  lemma {:induction false} SumAtMost(vs: seq<nat>, bound: nat)
    ensures (forall i :: 0 <= i < |vs| ==> vs[i] <= bound) ==> Sum(vs) <= bound * |vs|
  {
    if |vs| > 0 {
      SumAtMost(vs[..|vs| - 1], bound);
    }
  }

  /** The rounded arithmetic mean of some percentages; `None` stands for the
      NaN that dividing by an empty list gives. */
  function Mean(vs: seq<nat>): (r: Option<nat>)
    ensures r.None? <==> |vs| == 0
    ensures (forall i :: 0 <= i < |vs| ==> vs[i] <= 100) && r.Some? ==> r.value <= 100
  {
    if |vs| == 0 then None
    else
      SumAtMost(vs, 100);
      RoundDivAtMost(Sum(vs), |vs|, 100);
      Some(RoundDiv(Sum(vs), |vs|))
  }

  /** The mean of a non-empty list is its sum divided by its length, rounded. */
  lemma MeanOfNonEmpty(vs: seq<nat>)
    requires |vs| > 0
    ensures Mean(vs) == Some(RoundDiv(Sum(vs), |vs|))
  {
  }

  function ProgressValues(bank: QuestionBank, t: ProgressTable, ms: seq<ModuleId>): (vs: seq<nat>)
    ensures |vs| == |ms|
    ensures forall i :: 0 <= i < |ms| ==> vs[i] == ModuleProgress(bank, t, ms[i])
  {
    seq(|ms|, i requires 0 <= i < |ms| => ModuleProgress(bank, t, ms[i]))
  }

  /** Overall progress: the rounded mean of the per-module percentages, each
      module weighing the same whatever its number of questions. */
  function OverallProgress(bank: QuestionBank, t: ProgressTable, ms: seq<ModuleId>): (r: Option<nat>)
    ensures r.None? <==> |ms| == 0
    ensures r.Some? ==> r.value <= 100
  {
    Mean(ProgressValues(bank, t, ms))
  }

  /** Overall progress depends on the modules only through their own
      percentages. */
  lemma OverallProgressCongruent(bank: QuestionBank, a: ProgressTable, b: ProgressTable, ms: seq<ModuleId>)
    requires forall m :: m in ms ==> ModuleProgress(bank, a, m) == ModuleProgress(bank, b, m)
    ensures OverallProgress(bank, a, ms) == OverallProgress(bank, b, ms)
  {
    assert ProgressValues(bank, a, ms) == ProgressValues(bank, b, ms);
  }

  /** Loading placeholders changes no module's progress, hence not the
      overall progress either. */
  lemma LoadingKeepsOverallProgress(
    bank: QuestionBank, a: ProgressTable, b: ProgressTable, fetched: map<ModuleId, seq<Question>>, ms: seq<ModuleId>)
    requires TableExtends(a, b) && OnlyPlaceholdersAdded(a, b, fetched)
    ensures OverallProgress(bank, b, ms) == OverallProgress(bank, a, ms)
  {
    forall m | m in ms
      ensures ModuleProgress(bank, b, m) == ModuleProgress(bank, a, m)
    {
      LoadingKeepsProgress(bank, a, b, fetched, m);
    }
    OverallProgressCongruent(bank, b, a, ms);
  }

  /** A module of 2 questions with 1 mastered and one of 10 questions all
      mastered give an overall progress of 75%: each module weighs the same
      whatever its number of questions, where counting the 11 mastered of
      all 12 questions would give 92%. */
  lemma OverallIsUnweighted(bank: QuestionBank, t: ProgressTable, a: ModuleId, b: ModuleId)
    requires |QuestionsOf(bank, a)| == 2 && CorrectCount(ProgressOf(t, a), a, 2) == 1
    requires |QuestionsOf(bank, b)| == 10 && CorrectCount(ProgressOf(t, b), b, 10) == 10
    ensures OverallProgress(bank, t, [a, b]) == Some(75)
    ensures Percent(1 + 10, 2 + 10) == 92
  {
    RoundDivUnique(100, 2, 50);
    RoundDivUnique(1000, 10, 100);
    var vs := ProgressValues(bank, t, [a, b]);
    assert vs == [50, 100];
    assert Sum([50, 100]) == Sum([50]) + 100;
    RoundDivUnique(150, 2, 75);
    MeanOfNonEmpty(vs);
    RoundDivUnique(1100, 12, 92);
  }

  // ---------------------------------------------------------------------
  // The stored record

  /** The record as `JSON.stringify` writes it and `JSON.parse` reads it back. */
  function Encode(u: UserRecord): Blob {
    Parsed(Some(u.username), Some(u.progress), u.lastSession)
  }

  /** The structure check of loading: a record is accepted only with a
      non-empty user name and a progress table. */
  function Decode(b: Blob): (r: Option<UserRecord>)
    ensures r.Some? <==> b.Parsed? && b.username.Some? && b.username.value != "" && b.progress.Some?
    ensures r.Some? ==> r.value == UserRecord(b.username.value, b.progress.value, b.lastSession)
  {
    match b
    case Parsed(Some(name), Some(progress), lastSession) =>
      if name != "" then Some(UserRecord(name, progress, lastSession)) else None
    case _ => None
  }

  function StoredRecord(s: Option<Blob>): Option<UserRecord> {
    match s
    case None => None
    case Some(b) => Decode(b)
  }

  /** A saved record loads back unchanged, provided it has a user name; a
      record saved before anyone logged in is rejected on loading. */
  lemma SaveLoadRoundTrip(u: UserRecord)
    ensures StoredRecord(Some(Encode(u))) == if u.username != "" then Some(u) else None
  {
  }

  // ---------------------------------------------------------------------
  // The store

  /** The module-level state of js/data.js: the question cache, the user
      record and the local storage slot the record is saved to. */
  class Store {
    /** The ids of the configured modules, in configuration order. */
    const modules: seq<ModuleId>
    var questionsData: QuestionBank
    var user: UserRecord
    /** The local storage entry under the configured storage key. */
    var storage: Option<Blob>

    constructor (modules: seq<ModuleId>, stored: Option<Blob>)
      ensures this.modules == modules && storage == stored
      ensures questionsData == map[] && user == UserRecord("", map[], None)
    {
      this.modules := modules;
      questionsData := map[];
      user := UserRecord("", map[], None);
      storage := stored;
    }

    /** Empties every configured module's question list and gives each
        configured module a progress map, keeping the maps that exist. */
    method InitializeQuestionsData()
      modifies this
      ensures questionsData.Keys == old(questionsData).Keys + set m | m in modules
      ensures forall m :: m in modules ==> questionsData[m] == []
      ensures forall m :: m in old(questionsData) && m !in modules ==> questionsData[m] == old(questionsData)[m]
      ensures user.progress == WithModuleMaps(old(user.progress), modules)
      ensures forall m :: m in modules ==> m in user.progress
      ensures forall m :: m in old(user.progress) ==> m in user.progress && user.progress[m] == old(user.progress)[m]
      ensures forall m :: m in user.progress && m !in old(user.progress) ==> m in modules && user.progress[m] == map[]
      ensures TableConsistent(old(user.progress)) ==> TableConsistent(user.progress)
      ensures user.username == old(user.username) && user.lastSession == old(user.lastSession)
      ensures storage == old(storage)
    {
      var i := 0;
      while i < |modules|
        invariant 0 <= i <= |modules|
        invariant questionsData.Keys == old(questionsData).Keys + set m | m in modules[..i]
        invariant forall m :: m in modules[..i] ==> questionsData[m] == []
        invariant forall m :: m in old(questionsData) && m !in modules[..i] ==> questionsData[m] == old(questionsData)[m]
        invariant user.progress == WithModuleMaps(old(user.progress), modules[..i])
        invariant user.username == old(user.username) && user.lastSession == old(user.lastSession)
        invariant storage == old(storage)
      {
        var m := modules[i];
        assert modules[..i + 1] == modules[..i] + [m];
        questionsData := questionsData[m := []];
        if m !in user.progress {
          user := user.(progress := user.progress[m := map[]]);
        }
        i := i + 1;
      }
      assert modules[..i] == modules;
      WithModuleMapsFacts(old(user.progress), modules);
    }

    /** Gives every question of module `m` a placeholder entry, leaving the
        entries that exist untouched. */
    method InitializeQuestionProgress(m: ModuleId)
      requires m in questionsData && m in user.progress
      modifies this
      ensures questionsData == old(questionsData) && storage == old(storage)
      ensures user.progress == old(user.progress)[m := TopUp(old(user.progress)[m], m, |questionsData[m]|)]
      ensures user.username == old(user.username) && user.lastSession == old(user.lastSession)
    {
      var n := |questionsData[m]|;
      var i := 0;
      while i < n
        invariant 0 <= i <= n
        invariant user.progress == old(user.progress)[m := TopUp(old(user.progress)[m], m, i)]
        invariant user.username == old(user.username) && user.lastSession == old(user.lastSession)
        invariant questionsData == old(questionsData) && storage == old(storage)
      {
        var k := QuestionKey(m, i);
        if k !in user.progress[m] {
          user := user.(progress := user.progress[m := user.progress[m][k := Unseen]]);
        }
        i := i + 1;
      }
    }

    /** What happens when module `m`'s file has been fetched and parsed:
        its question list is replaced and its questions get placeholders. */
    method ModuleLoaded(m: ModuleId, data: seq<Question>)
      requires m in user.progress
      modifies this
      ensures questionsData == old(questionsData)[m := data]
      ensures user.progress == old(user.progress)[m := TopUp(old(user.progress)[m], m, |data|)]
      ensures user.username == old(user.username) && user.lastSession == old(user.lastSession)
      ensures storage == old(storage)
    {
      questionsData := questionsData[m := data];
      InitializeQuestionProgress(m);
    }

    /** Loads the question lists: `fetched` holds the modules whose file was
        fetched and parsed; the others keep an empty list. Each loaded
        module gets its placeholders; no existing entry is changed. */
    method LoadAllQuestions(fetched: map<ModuleId, seq<Question>>)
      modifies this
      ensures questionsData.Keys == old(questionsData).Keys + set m | m in modules
      ensures forall m :: m in modules ==> m in questionsData && questionsData[m] == if m in fetched then fetched[m] else []
      ensures forall m :: m in old(questionsData) && m !in modules ==> questionsData[m] == old(questionsData)[m]
      ensures user.progress == LoadedProgress(WithModuleMaps(old(user.progress), modules), modules, fetched)
      ensures user.progress.Keys == old(user.progress).Keys + set m | m in modules
      ensures forall m :: m in modules && m in fetched ==> m in user.progress && Covers(user.progress[m], m, |fetched[m]|)
      ensures TableExtends(old(user.progress), user.progress)
      ensures OnlyPlaceholdersAdded(old(user.progress), user.progress, fetched)
      ensures TableConsistent(old(user.progress)) ==> TableConsistent(user.progress)
      ensures user.username == old(user.username) && user.lastSession == old(user.lastSession)
      ensures storage == old(storage)
    {
      InitializeQuestionsData();
      ghost var emptied := questionsData;
      ghost var initial := user.progress;
      var i := 0;
      while i < |modules|
        invariant 0 <= i <= |modules|
        invariant questionsData == WithFetched(emptied, modules[..i], fetched)
        invariant user.progress == LoadedProgress(initial, modules[..i], fetched)
        invariant user.username == old(user.username) && user.lastSession == old(user.lastSession)
        invariant storage == old(storage)
      {
        var m := modules[i];
        assert modules[..i + 1] == modules[..i] + [m];
        LoadedProgressFacts(initial, modules[..i], fetched);
        if m in fetched {
          ModuleLoaded(m, fetched[m]);
        }
        i := i + 1;
      }
      assert modules[..i] == modules;
      WithFetchedAt(emptied, modules, fetched);
      LoadingFacts(old(user.progress), modules, fetched);
    }

    /** Stamps the session time and writes the record to storage. */
    method SaveUserData(now: Timestamp)
      modifies this
      ensures user == old(user).(lastSession := Some(now))
      ensures storage == Some(Encode(user))
      ensures questionsData == old(questionsData)
    {
      user := user.(lastSession := Some(now));
      storage := Some(Encode(user));
    }

    /** Replaces the record with the stored one when it passes the structure
        check; otherwise leaves the record untouched. */
    method LoadUserData() returns (ok: bool)
      modifies this
      ensures ok <==> StoredRecord(storage).Some?
      ensures ok ==> user == StoredRecord(storage).value
      ensures !ok ==> user == old(user)
      ensures storage == old(storage) && questionsData == old(questionsData)
    {
      match storage
      case Some(b) =>
        var d := Decode(b);
        if d.Some? {
          user := d.value;
          return true;
        }
        return false;
      case None =>
        return false;
    }

    method SetUsername(name: string, now: Timestamp)
      modifies this
      ensures user == old(user).(username := name, lastSession := Some(now))
      ensures storage == Some(Encode(user))
      ensures questionsData == old(questionsData)
    {
      user := user.(username := name);
      SaveUserData(now);
    }

    function GetUsername(): (name: string)
      reads this
      ensures name == user.username
    {
      user.username
    }

    /** A module never loaded reads as having no questions. */
    function GetModuleQuestions(m: ModuleId): (qs: seq<Question>)
      reads this
      ensures m in questionsData ==> qs == questionsData[m]
      ensures m !in questionsData ==> qs == []
    {
      QuestionsOf(questionsData, m)
    }

    /** A module without a progress map reads as having no entries. */
    function GetModuleProgress(m: ModuleId): (pm: ModuleProgressMap)
      reads this
      ensures m in user.progress ==> pm == user.progress[m]
      ensures m !in user.progress ==> pm == map[]
    {
      ProgressOf(user.progress, m)
    }

    /** Records one answer to question `questionIndex` of module `m`, creating
        its entry first when it has none, then saves. */
    method UpdateQuestionProgress(m: ModuleId, questionIndex: nat, isCorrect: bool, now: Timestamp)
      requires m in user.progress
      modifies this
      ensures user.progress == RecordAnswer(old(user.progress), m, questionIndex, isCorrect, now)
      ensures user.username == old(user.username) && user.lastSession == Some(now)
      ensures storage == Some(Encode(user)) && questionsData == old(questionsData)
    {
      var t := user.progress;
      var k := QuestionKey(m, questionIndex);
      var pm := t[m];
      if k !in pm {
        pm := pm[k := Unseen];
      }
      ghost var p := Answered(EntryOf(t[m], k), isCorrect, now);
      assert pm[k] == EntryOf(t[m], k);
      pm := pm[k := Answered(pm[k], isCorrect, now)];
      if k !in t[m] {
        SetTwice(t[m], k, Unseen, p);
      }
      user := user.(progress := t[m := pm]);
      SaveUserData(now);
    }

    /** Resets the record to an anonymous one with one empty progress map per
        configured module, and removes the stored copy. */
    method ClearUserData()
      modifies this
      ensures user == UserRecord("", map m | m in modules :: map[], None)
      ensures storage == None && questionsData == old(questionsData)
    {
      user := UserRecord("", map[], None);
      var i := 0;
      while i < |modules|
        invariant 0 <= i <= |modules|
        invariant user == UserRecord("", map m | m in modules[..i] :: map[], None)
        invariant questionsData == old(questionsData)
      {
        assert modules[..i + 1] == modules[..i] + [modules[i]];
        user := user.(progress := user.progress[modules[i] := map[]]);
        i := i + 1;
      }
      assert modules[..i] == modules;
      storage := None;
    }

    /** The percentage of module `m`'s questions answered correctly at least
        once. */
    method CalculateModuleProgress(m: ModuleId) returns (r: nat)
      ensures r == ModuleProgress(questionsData, user.progress, m)
    {
      var progress := GetModuleProgress(m);
      var questions := GetModuleQuestions(m);
      if |questions| == 0 {
        return 0;
      }
      var correctCount := 0;
      var i := 0;
      while i < |questions|
        invariant 0 <= i <= |questions|
        invariant correctCount == CorrectCount(progress, m, i)
      {
        var k := QuestionKey(m, i);
        if k in progress && progress[k].correct > 0 {
          correctCount := correctCount + 1;
        }
        i := i + 1;
      }
      r := Percent(correctCount, |questions|);
    }

    /** The rounded mean of the configured modules' progress; `None` (NaN)
        when no module is configured. */
    method CalculateOverallProgress() returns (r: Option<nat>)
      ensures r == OverallProgress(questionsData, user.progress, modules)
    {
      ghost var values := ProgressValues(questionsData, user.progress, modules);
      var totalProgress := 0;
      var i := 0;
      while i < |modules|
        invariant 0 <= i <= |modules|
        invariant totalProgress == Sum(values[..i])
      {
        var p := CalculateModuleProgress(modules[i]);
        SumPrefix(values, i);
        totalProgress := totalProgress + p;
        i := i + 1;
      }
      assert values[..i] == values;
      if |modules| == 0 {
        r := None;
      } else {
        MeanOfNonEmpty(values);
        r := Some(RoundDiv(totalProgress, |modules|));
      }
    }
  }
}
