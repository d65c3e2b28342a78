// The shared data model of the study tracker: the two fixed users, the four
// skills, study-log entries, and the weekly "battle plan" with its tasks.

module Types {

  /** An optional value, standing for a field that may be `undefined`. */
  datatype Option<T> = None | Some(value: T)

  /** The two fixed identities, 'user1' and 'user2'; no others exist. */
  datatype UserId = User1 | User2

  /** The other user: the one who verifies this user's tasks. */
  function Partner(u: UserId): (p: UserId)
    ensures p != u
  {
    if u == User1 then User2 else User1
  }

  /** Since there are exactly two users, "the partner" is an involution and
      every user is either `u` or `u`'s partner. */
  lemma PartnerInvolution(u: UserId, v: UserId)
    ensures Partner(Partner(u)) == u
    ensures v == u || v == Partner(u)
  {
    match u
    case User1 =>
    case User2 =>
  }

  /** The wire string of a user identity. */
  function UserName(u: UserId): (s: string)
    ensures s == "user1" || s == "user2"
    ensures (s == "user1") <==> (u == User1)
  {
    match u
    case User1 => "user1"
    case User2 => "user2"
  }

  /** The four study skills. */
  datatype Skill = Listening | Reading | Speaking | Writing

  /** The string value of each skill of the enumeration. */
  function SkillName(s: Skill): (name: string)
    ensures |name| > 0
  {
    match s
    case Listening => "Listening"
    case Reading => "Reading"
    case Speaking => "Speaking"
    case Writing => "Writing"
  }

  /** Distinct skills have distinct names, so a lookup by name finds the right one. */
  lemma SkillNameInjective(s: Skill, t: Skill)
    requires SkillName(s) == SkillName(t)
    ensures s == t
  {
  }

  /** One self-assigned goal. The two flags are independent booleans: the type
      itself does not force `isVerified ==> isCompleted`. */
  datatype Task = Task(id: string, text: string, isCompleted: bool, isVerified: bool)

  /** The per-user task lists of a plan: one ordered sequence for every user. */
  datatype TaskLists = TaskLists(user1: seq<Task>, user2: seq<Task>) {

    /** The tasks of user `u`. */
    function Of(u: UserId): seq<Task>
    {
      match u
      case User1 => user1
      case User2 => user2
    }

    /** The record with `u`'s list replaced by `ts`, as `{ ...tasks, [u]: ts }`. */
    function With(u: UserId, ts: seq<Task>): (r: TaskLists)
      ensures r.Of(u) == ts
      ensures r.Of(Partner(u)) == Of(Partner(u))
    {
      match u
      case User1 => this.(user1 := ts)
      case User2 => this.(user2 := ts)
    }
  }

  /** The single active plan of one week. */
  datatype WeeklyPlan = WeeklyPlan(id: string, weekStart: string, penalty: string, tasks: TaskLists)

  /** One study session record; `score` and `notes` are optional. */
  datatype StudyLog = StudyLog(
    id: string,
    userId: UserId,
    date: string,
    skill: Skill,
    durationMinutes: int,
    score: Option<int>,
    notes: Option<string>)
}
