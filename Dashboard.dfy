// The dashboard's two aggregations over the study logs: hours per skill and
// user for the bar chart, and the last five scored logs for the score chart.

module Dashboard {
  import opened Types

  // ---------------------------------------------------------------------------
  // Hours per skill and user
  // ---------------------------------------------------------------------------

  /** One bar group of the hours chart: a skill name and each user's hours. */
  datatype SkillRow = SkillRow(name: string, user1: real, user2: real)

  /** The skill of row `k` of the chart: Listening, Reading, Speaking, Writing. */
  function RowSkill(k: nat): Skill
    requires k < 4
  {
    [Listening, Reading, Speaking, Writing][k]
  }

  /** The rows are in one-to-one correspondence with the skills. */
  lemma RowSkillBijective(s: Skill)
    ensures exists k :: 0 <= k < 4 && RowSkill(k) == s
    ensures forall k, j :: 0 <= k < 4 && 0 <= j < 4 && RowSkill(k) == RowSkill(j) ==> k == j
  {
    match s
    case Listening => assert RowSkill(0) == s;
    case Reading => assert RowSkill(1) == s;
    case Speaking => assert RowSkill(2) == s;
    case Writing => assert RowSkill(3) == s;
  }

  /** The hours a log adds: its minutes divided by 60, exactly. */
  function LogHours(log: StudyLog): (hours: real)
    ensures hours * 60.0 == log.durationMinutes as real
    ensures log.durationMinutes >= 0 ==> hours >= 0.0
  {
    log.durationMinutes as real / 60.0
  }

  /** What `log` adds to the cell of `skill` and `user`. */
  function Contribution(log: StudyLog, skill: Skill, user: UserId): real
  {
    if log.skill == skill && log.userId == user then LogHours(log) else 0.0
  }

  /** The hours of the logs of `skill` by `user`: the value the chart's cell
      should show. */
  function SkillHours(logs: seq<StudyLog>, skill: Skill, user: UserId): real
  {
    if logs == [] then 0.0
    else SkillHours(logs[..|logs| - 1], skill, user) + Contribution(logs[|logs| - 1], skill, user)
  }

  /** The hours of all logs of `skill`, whoever logged them. */
  function AllHours(logs: seq<StudyLog>, skill: Skill): real
  {
    if logs == [] then 0.0
    else AllHours(logs[..|logs| - 1], skill) + (if logs[|logs| - 1].skill == skill then LogHours(logs[|logs| - 1]) else 0.0)
  }

  /** Every log counts in exactly one user's column: the two columns of a row
      add up to all hours of that skill. */
  lemma {:induction false} ColumnsPartition(logs: seq<StudyLog>, skill: Skill)
    ensures SkillHours(logs, skill, User1) + SkillHours(logs, skill, User2) == AllHours(logs, skill)
  {
    if logs != [] {
      ColumnsPartition(logs[..|logs| - 1], skill);
    }
  }

  /** Cell totals split over concatenation. */
  lemma {:induction false} SkillHoursAppend(a: seq<StudyLog>, b: seq<StudyLog>, skill: Skill, user: UserId)
    ensures SkillHours(a + b, skill, user) == SkillHours(a, skill, user) + SkillHours(b, skill, user)
    decreases |b|
  {
    if b == [] {
      assert a + b == a;
    } else {
      var b' := b[..|b| - 1];
      assert (a + b)[..|a + b| - 1] == a + b';
      assert (a + b)[|a + b| - 1] == b[|b| - 1];
      SkillHoursAppend(a, b', skill, user);
    }
  }

  /** Taking log `j` out of the middle removes exactly its contribution. */
  lemma SkillHoursRemoveAt(ys: seq<StudyLog>, j: nat, skill: Skill, user: UserId)
    requires j < |ys|
    ensures SkillHours(ys, skill, user) ==
            SkillHours(ys[..j] + ys[j + 1..], skill, user) + Contribution(ys[j], skill, user)
  {
    var pre, x, post := ys[..j], ys[j], ys[j + 1..];
    assert ys == pre + ([x] + post);
    assert [x][..0] == [];
    SkillHoursAppend(pre, [x] + post, skill, user);
    SkillHoursAppend([x], post, skill, user);
    SkillHoursAppend(pre, post, skill, user);
  }

  /** Matching the last element of `xs` with an equal element `ys[j]` of a
      permutation `ys` leaves two permutations once both are taken out. */
  lemma MatchLast<T>(xs: seq<T>, ys: seq<T>, j: nat)
    requires multiset(xs) == multiset(ys)
    requires 0 < |xs| && j < |ys| && ys[j] == xs[|xs| - 1]
    ensures multiset(xs[..|xs| - 1]) == multiset(ys[..j] + ys[j + 1..])
  {
    var n, x := |xs| - 1, ys[j];
    assert xs == xs[..n] + [x];
    assert ys == ys[..j] + [x] + ys[j + 1..];
    calc {
      multiset(xs[..n]);
      multiset(xs) - multiset{x};
      multiset(ys) - multiset{x};
      multiset(ys[..j]) + multiset(ys[j + 1..]);
      multiset(ys[..j] + ys[j + 1..]);
    }
  }

  /** The totals do not depend on the order of the logs. */
  lemma {:induction false} SkillHoursPermutation(xs: seq<StudyLog>, ys: seq<StudyLog>, skill: Skill, user: UserId)
    requires multiset(xs) == multiset(ys)
    ensures SkillHours(xs, skill, user) == SkillHours(ys, skill, user)
    decreases |xs|
  {
    if xs != [] {
      var n := |xs| - 1;
      assert xs[n] in multiset(ys);
      var j :| 0 <= j < |ys| && ys[j] == xs[n];
      MatchLast(xs, ys, j);
      SkillHoursPermutation(xs[..n], ys[..j] + ys[j + 1..], skill, user);
      SkillHoursRemoveAt(ys, j, skill, user);
    }
  }

  /** Taking one more log into account adds exactly its contribution. */
  lemma SkillHoursStep(logs: seq<StudyLog>, i: nat, skill: Skill, user: UserId)
    requires i < |logs|
    ensures SkillHours(logs[..i + 1], skill, user) == SkillHours(logs[..i], skill, user) + Contribution(logs[i], skill, user)
  {
    assert logs[..i + 1][..i] == logs[..i];
  }

  /** `findIndex` of a row by name: the first row with that name, or -1. */
  function FindRow(rows: seq<SkillRow>, name: string): (k: int)
    ensures -1 <= k < |rows|
    ensures k == -1 <==> forall j :: 0 <= j < |rows| ==> rows[j].name != name
    ensures k >= 0 ==> rows[k].name == name && forall j :: 0 <= j < k ==> rows[j].name != name
  {
    if rows == [] then -1
    else if rows[0].name == name then 0
    else
      var k := FindRow(rows[1..], name);
      if k == -1 then -1 else k + 1
  }

  /** A table has the four rows in the fixed skill order. */
  predicate TableShape(rows: seq<SkillRow>)
  {
    |rows| == 4 && forall k :: 0 <= k < 4 ==> rows[k].name == SkillName(RowSkill(k))
  }

  /** A four-row table whose cells hold the hours of `logs`. */
  predicate TableHolds(rows: seq<SkillRow>, logs: seq<StudyLog>)
  {
    TableShape(rows) &&
    forall k :: 0 <= k < 4 ==>
      rows[k].user1 == SkillHours(logs, RowSkill(k), User1) &&
      rows[k].user2 == SkillHours(logs, RowSkill(k), User2)
  }

  /** The row after one log: a log of 'user1' adds to the `user1` column and
      any other log to the `user2` column. */
  function AddToRow(row: SkillRow, log: StudyLog): (r: SkillRow)
    ensures r.name == row.name
    ensures r.user1 + r.user2 == row.user1 + row.user2 + LogHours(log)
    ensures log.userId == User1 ==> r.user2 == row.user2
    ensures log.userId != User1 ==> r.user1 == row.user1
  {
    if UserName(log.userId) == "user1" then row.(user1 := row.user1 + LogHours(log))
    else row.(user2 := row.user2 + LogHours(log))
  }

  /** In a four-row table the lookup by a skill's name finds that skill's row. */
  lemma FindSkillRow(rows: seq<SkillRow>, skill: Skill)
    requires TableShape(rows)
    ensures 0 <= FindRow(rows, SkillName(skill)) < 4
    ensures RowSkill(FindRow(rows, SkillName(skill))) == skill
  {
    RowSkillBijective(skill);
    var k := FindRow(rows, SkillName(skill));
    if k >= 0 {
      SkillNameInjective(RowSkill(k), skill);
    }
  }

  /** Adding log `i` to the row its skill's name finds takes a table of the
      first `i` logs to the table of the first `i + 1`. */
  lemma AddLogKeepsTable(rows: seq<SkillRow>, logs: seq<StudyLog>, i: nat)
    requires i < |logs| && TableHolds(rows, logs[..i])
    ensures 0 <= FindRow(rows, SkillName(logs[i].skill)) < 4
    ensures
      var k := FindRow(rows, SkillName(logs[i].skill));
      TableHolds(rows[k := AddToRow(rows[k], logs[i])], logs[..i + 1])
  {
    var log := logs[i];
    FindSkillRow(rows, log.skill);
    var idx := FindRow(rows, SkillName(log.skill));
    var rows' := rows[idx := AddToRow(rows[idx], log)];
    RowSkillBijective(log.skill);
    forall k | 0 <= k < 4
      ensures rows'[k].user1 == SkillHours(logs[..i + 1], RowSkill(k), User1)
      ensures rows'[k].user2 == SkillHours(logs[..i + 1], RowSkill(k), User2)
    {
      SkillHoursStep(logs, i, RowSkill(k), User1);
      SkillHoursStep(logs, i, RowSkill(k), User2);
    }
  }

  /** The table before any log: the four skills in order, every cell 0. */
  function EmptyTable(): (rows: seq<SkillRow>)
    ensures TableHolds(rows, [])
  {
    [SkillRow("Listening", 0.0, 0.0), SkillRow("Reading", 0.0, 0.0),
     SkillRow("Speaking", 0.0, 0.0), SkillRow("Writing", 0.0, 0.0)]
  }

  /** The `skillData` table after the `forEach` over the logs: four rows in
      the fixed skill order, each cell the hours of that skill and user. */
  method AggregateSkillHours(logs: seq<StudyLog>) returns (table: seq<SkillRow>)
    ensures |table| == 4
    ensures forall k :: 0 <= k < 4 ==> table[k].name == SkillName(RowSkill(k))
    ensures forall k :: 0 <= k < 4 ==>
              table[k].user1 == SkillHours(logs, RowSkill(k), User1) &&
              table[k].user2 == SkillHours(logs, RowSkill(k), User2)
  {
    var skillData := new SkillRow[4](k requires 0 <= k < 4 => EmptyTable()[k]);
    assert skillData[..] == EmptyTable();
    for i := 0 to |logs|
      invariant TableHolds(skillData[..], logs[..i])
    {
      var log := logs[i];
      var skillIndex := FindRow(skillData[..], SkillName(log.skill));
      AddLogKeepsTable(skillData[..], logs, i);
      if skillIndex != -1 {
        skillData[skillIndex] := AddToRow(skillData[skillIndex], log);
      }
    }
    assert logs[..|logs|] == logs;
    table := skillData[..];
  }

  /** The two-log scenario: an hour of Listening by user1 and 45 minutes of
      Reading by user2 give 1 and 0.75 hours in those cells and 0 in the others. */
  lemma TwoLogExample(a: StudyLog, b: StudyLog)
    requires a.userId == User1 && a.skill == Listening && a.durationMinutes == 60
    requires b.userId == User2 && b.skill == Reading && b.durationMinutes == 45
    ensures SkillHours([a, b], Listening, User1) == 1.0
    ensures SkillHours([a, b], Reading, User2) == 0.75
    ensures SkillHours([a, b], Listening, User2) == 0.0
    ensures SkillHours([a, b], Reading, User1) == 0.0
    ensures SkillHours([a, b], Writing, User1) == 0.0
    ensures SkillHours([a, b], Writing, User2) == 0.0
    ensures SkillHours([a, b], Speaking, User1) == 0.0
    ensures SkillHours([a, b], Speaking, User2) == 0.0
  {
    assert [a, b][..1] == [a];
    assert [a][..0] == [];
    assert [a, b][1] == b;
    forall s, u
      ensures SkillHours([a], s, u) == Contribution(a, s, u)
    {
    }
  }

  // ---------------------------------------------------------------------------
  // Recent scores
  // ---------------------------------------------------------------------------

  /** The logs that carry a score, in their original order. */
  function ScoredLogs(logs: seq<StudyLog>): (r: seq<StudyLog>)
    ensures |r| <= |logs|
    ensures forall i :: 0 <= i < |r| ==> r[i].score.Some?
  {
    if logs == [] then []
    else (if logs[0].score.Some? then [logs[0]] else []) + ScoredLogs(logs[1..])
  }

  /** A log is among the scored logs exactly when it is one of the logs and
      carries a score. */
  lemma {:induction false} ScoredLogsMembers(logs: seq<StudyLog>)
    ensures forall l :: l in ScoredLogs(logs) <==> l in logs && l.score.Some?
  {
    if logs != [] {
      ScoredLogsMembers(logs[1..]);
      assert logs == [logs[0]] + logs[1..];
    }
  }

  /** Filtering works piecewise, so it keeps the logs' order. */
  lemma {:induction false} ScoredLogsAppend(a: seq<StudyLog>, b: seq<StudyLog>)
    ensures ScoredLogs(a + b) == ScoredLogs(a) + ScoredLogs(b)
  {
    if a == [] {
      assert a + b == b;
    } else {
      assert (a + b)[0] == a[0];
      assert (a + b)[1..] == a[1..] + b;
      ScoredLogsAppend(a[1..], b);
    }
  }

  /** The last `n` elements of `s`, or all of `s` when it is shorter, as
      `slice(-n)` for a positive `n` (`slice(-0)` would keep everything). */
  function LastN<T>(s: seq<T>, n: nat): (r: seq<T>)
    requires n > 0
    ensures |r| == if |s| < n then |s| else n
    ensures r == s[|s| - |r|..]
  {
    s[(if |s| >= n then |s| - n else 0)..]
  }

  /** `mockTestLogs`: the last five scored logs, in their original order. */
  function MockTestLogs(logs: seq<StudyLog>): (r: seq<StudyLog>)
    ensures |r| <= 5
    ensures |r| == 0 <==> |ScoredLogs(logs)| == 0
    ensures forall i :: 0 <= i < |r| ==> r[i].score.Some?
    ensures r == LastN(ScoredLogs(logs), 5)
  {
    var scored := ScoredLogs(logs);
    var r := LastN(scored, 5);
    assert forall i :: 0 <= i < |r| ==> r[i] == scored[|scored| - |r| + i];
    r
  }

  /** Keeping the last `n` after appending does not depend on what was
      dropped before. */
  lemma LastNAppend<T>(s: seq<T>, x: T, n: nat)
    requires n > 0
    ensures LastN(s + [x], n) == LastN(LastN(s, n) + [x], n)
  {
  }

  /** Appending a scored log, as the tracker does, makes it the newest point
      and slides the window of five along; appending an unscored log changes
      nothing. */
  lemma AppendLogSlidesWindow(logs: seq<StudyLog>, log: StudyLog)
    ensures log.score.Some? ==> MockTestLogs(logs + [log]) == LastN(MockTestLogs(logs) + [log], 5)
    ensures log.score.None? ==> MockTestLogs(logs + [log]) == MockTestLogs(logs)
  {
    ScoredLogsAppend(logs, [log]);
    assert [log][1..] == [];
    assert ScoredLogs([log]) == if log.score.Some? then [log] else [];
    var scored := ScoredLogs(logs);
    if log.score.Some? {
      LastNAppend(scored, log, 5);
    } else {
      assert scored + [] == scored;
    }
  }

  /** The decimal digit character of `d`. */
  function DigitChar(d: nat): (c: char)
    requires d < 10
    ensures '0' <= c <= '9'
    ensures c as int - '0' as int == d
  {
    ('0' as int + d) as char
  }

  /** The number a string of decimal digits denotes, read left to right. */
  function NumeralValue(s: string): nat
    requires forall i :: 0 <= i < |s| ==> '0' <= s[i] <= '9'
  {
    if s == [] then 0
    else NumeralValue(s[..|s| - 1]) * 10 + (s[|s| - 1] as int - '0' as int)
  }

  /** The decimal numeral of `n`, as a template literal renders a number:
      digits denoting `n`, with no leading zero. */
  function Decimal(n: nat): (s: string)
    ensures |s| >= 1
    ensures forall i :: 0 <= i < |s| ==> '0' <= s[i] <= '9'
    ensures NumeralValue(s) == n
    ensures n == 0 ==> s == "0"
    ensures n > 0 ==> s[0] != '0'
  {
    if n < 10 then
      var s := [DigitChar(n)];
      assert s[..0] == [];
      s
    else
      var s := Decimal(n / 10) + [DigitChar(n % 10)];
      assert s[..|s| - 1] == Decimal(n / 10);
      s
  }

  /** One point of the score chart. The chart looks the user's display name
      and colour up from the user; the model keeps the user. */
  datatype ScorePoint = ScorePoint(name: string, score: int, user: UserId)

  /** `scoreData`: one point per recent scored log, in order, labelled by its
      position from 1. */
  function ScoreData(mock: seq<StudyLog>): (points: seq<ScorePoint>)
    requires forall i :: 0 <= i < |mock| ==> mock[i].score.Some?
    ensures |points| == |mock|
    ensures forall i :: 0 <= i < |points| ==>
              points[i].name == "Test " + Decimal(i + 1) &&
              mock[i].score == Some(points[i].score) &&
              points[i].user == mock[i].userId
  {
    seq(|mock|, i requires 0 <= i < |mock| => ScorePoint("Test " + Decimal(i + 1), mock[i].score.value, mock[i].userId))
  }

  /** The points the score chart draws for `logs`. */
  function RecentScores(logs: seq<StudyLog>): (points: seq<ScorePoint>)
    ensures |points| <= 5
  {
    ScoreData(MockTestLogs(logs))
  }

  /** A label below 10 is "Test " followed by its single digit. */
  lemma SingleDigitLabel(n: nat)
    requires n < 10
    ensures "Test " + Decimal(n) == "Test " + [DigitChar(n)]
    ensures ("Test " + Decimal(n))[5] == DigitChar(n)
  {
  }

  /** The chart's labels are distinct: "Test 1" to "Test n" with n at most 5. */
  lemma ScoreLabelsDistinct(logs: seq<StudyLog>)
    ensures forall i, j :: 0 <= i < j < |RecentScores(logs)| ==>
              RecentScores(logs)[i].name != RecentScores(logs)[j].name
  {
    var points := ScoreData(MockTestLogs(logs));
    assert points == RecentScores(logs);
    assert |points| <= 5;
    forall i, j | 0 <= i < j < |points|
      ensures points[i].name != points[j].name
    {
      assert points[i].name == "Test " + Decimal(i + 1);
      assert points[j].name == "Test " + Decimal(j + 1);
      SingleDigitLabel(i + 1);
      SingleDigitLabel(j + 1);
    }
  }

  /** The score chart is drawn, rather than the empty-state message, when
      there is a point to draw. */
  function ShowsScoreChart(logs: seq<StudyLog>): (shows: bool)
    ensures shows <==> |ScoredLogs(logs)| > 0
  {
    |RecentScores(logs)| > 0
  }

  /** The empty-state message appears exactly when no log has a score. */
  lemma EmptyStateIffNoScore(logs: seq<StudyLog>)
    ensures ShowsScoreChart(logs) <==> exists i :: 0 <= i < |logs| && logs[i].score.Some?
  {
    ScoredLogsMembers(logs);
    if exists i :: 0 <= i < |logs| && logs[i].score.Some? {
      var i :| 0 <= i < |logs| && logs[i].score.Some?;
      assert logs[i] in logs;
      assert logs[i] in ScoredLogs(logs);
    }
    if ShowsScoreChart(logs) {
      var scored := ScoredLogs(logs);
      assert |MockTestLogs(logs)| > 0;
      assert scored[0] in scored;
      var i :| 0 <= i < |logs| && logs[i] == scored[0];
    }
  }

  /** Dropping a log without a score does not change the scored logs. */
  lemma UnscoredHead(log: StudyLog, rest: seq<StudyLog>)
    requires log.score.None?
    ensures ScoredLogs([log] + rest) == ScoredLogs(rest)
  {
    assert ([log] + rest)[1..] == rest;
  }

  /** On the seed logs, five logs of which only the first and the last carry
      a score, the scored logs are the first and the last. */
  lemma SeedScoredLogs(a: StudyLog, b: StudyLog, c: StudyLog, d: StudyLog, e: StudyLog)
    requires a.score.Some? && b.score.None? && c.score.None? && d.score.None? && e.score.Some?
    ensures ScoredLogs([a, b, c, d, e]) == [a, e]
  {
    assert ScoredLogs([e]) == [e] by {
      assert [e][1..] == [];
    }
    UnscoredHead(d, [e]);
    UnscoredHead(c, [d, e]);
    UnscoredHead(b, [c, d, e]);
    assert [a, b, c, d, e][1..] == [b] + [c, d, e];
  }

  /** With the seed's scores, 650 then 700, both of user1, the chart shows
      the points "Test 1" at 650 and "Test 2" at 700. */
  lemma SeedScoreChart(a: StudyLog, b: StudyLog, c: StudyLog, d: StudyLog, e: StudyLog)
    requires a.score == Some(650) && a.userId == User1
    requires b.score.None? && c.score.None? && d.score.None?
    requires e.score == Some(700) && e.userId == User1
    ensures RecentScores([a, b, c, d, e]) ==
            [ScorePoint("Test 1", 650, User1), ScorePoint("Test 2", 700, User1)]
  {
    SeedScoredLogs(a, b, c, d, e);
    assert MockTestLogs([a, b, c, d, e]) == [a, e];
    var points := ScoreData([a, e]);
    assert Decimal(1) == "1" && Decimal(2) == "2";
    assert points[0] == ScorePoint("Test 1", 650, User1);
    assert points[1] == ScorePoint("Test 2", 700, User1);
  }
}
