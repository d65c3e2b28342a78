// The weekly "battle plan" ledger: the five plan handlers and the per-column
// metrics. Every handler takes the current plan and yields the plan it hands
// to the update callback; a handler that returns early yields `None`.

module WeeklyPlanner {
  import opened Types

  // ---------------------------------------------------------------------------
  // Blank text, as `!text.trim()` decides it
  // ---------------------------------------------------------------------------

  /** The characters JavaScript's `String.prototype.trim` strips: WhiteSpace
      (tab, vertical tab, form feed, space, no-break space, byte order mark and
      the space separators) and LineTerminator (LF, CR, U+2028, U+2029). */
  const TrimmableChars: set<char> :=
    {'\t', '\n', '\U{000B}', '\U{000C}', '\r', ' ', '\U{00A0}', '\U{1680}',
     '\U{2000}', '\U{2001}', '\U{2002}', '\U{2003}', '\U{2004}', '\U{2005}',
     '\U{2006}', '\U{2007}', '\U{2008}', '\U{2009}', '\U{200A}',
     '\U{2028}', '\U{2029}', '\U{202F}', '\U{205F}', '\U{3000}', '\U{FEFF}'}

  predicate IsTrimmable(c: char)
  {
    c in TrimmableChars
  }

  /** Every character of `s` is one that trimming removes. */
  predicate IsBlank(s: string)
  {
    forall i :: 0 <= i < |s| ==> IsTrimmable(s[i])
  }

  /** Scanning forward from `i`: the index of the first character at or after
      `i` that trimming keeps, or `|s|` when there is none. */
  function Start(s: string, i: nat): (a: nat)
    requires i <= |s|
    ensures i <= a <= |s|
    ensures forall k :: i <= k < a ==> IsTrimmable(s[k])
    ensures a == |s| || !IsTrimmable(s[a])
    decreases |s| - i
  {
    if i < |s| && IsTrimmable(s[i]) then Start(s, i + 1) else i
  }

  /** Scanning backward from `j` down to `lo`: the end of the span that
      trimming keeps, so that everything from it up to `j` is trimmable. */
  function End(s: string, lo: nat, j: nat): (b: nat)
    requires lo <= j <= |s|
    ensures lo <= b <= j
    ensures forall k :: b <= k < j ==> IsTrimmable(s[k])
    ensures b == lo || !IsTrimmable(s[b - 1])
    decreases j
  {
    if lo < j && IsTrimmable(s[j - 1]) then End(s, lo, j - 1) else j
  }

  /** `String.prototype.trim`: the slice of `s` left once its leading and
      trailing trimmable characters are removed. It starts where the leading
      run ends, everything before and after it is trimmable, and it neither
      starts nor ends with a trimmable character. */
  function Trim(s: string): (r: string)
    ensures |r| <= |s|
    ensures r == [] || (!IsTrimmable(r[0]) && !IsTrimmable(r[|r| - 1]))
    ensures var a := Start(s, 0); a + |r| <= |s| && r == s[a..a + |r|]
    ensures IsBlank(s[..Start(s, 0)])
    ensures var a := Start(s, 0); a + |r| <= |s| && IsBlank(s[a + |r|..])
  {
    var a := Start(s, 0);
    var b := End(s, a, |s|);
    assert IsBlank(s[..a]) by {
      forall k | 0 <= k < a ensures IsTrimmable(s[..a][k]) {
        assert s[..a][k] == s[k];
      }
    }
    assert IsBlank(s[b..]) by {
      forall k | 0 <= k < |s| - b ensures IsTrimmable(s[b..][k]) {
        assert s[b..][k] == s[b + k];
      }
    }
    s[a..b]
  }

  /** Trimming yields the empty string exactly when the text is blank. */
  lemma TrimEmptyIffBlank(s: string)
    ensures Trim(s) == [] <==> IsBlank(s)
  {
    var a := Start(s, 0);
    var b := End(s, a, |s|);
    assert Trim(s) == s[a..b];
  }

  // ---------------------------------------------------------------------------
  // Task-list transformations used by the handlers (`map` and `filter`)
  // ---------------------------------------------------------------------------

  /** The tasks with id `taskId` get `isCompleted` negated and `isVerified`
      cleared; every other task, and the order and length, stay as they are. */
  function FlipCompletion(ts: seq<Task>, taskId: string): (r: seq<Task>)
    ensures |r| == |ts|
    ensures forall i :: 0 <= i < |ts| ==>
              r[i].id == ts[i].id && r[i].text == ts[i].text
    ensures forall i :: 0 <= i < |ts| && ts[i].id == taskId ==>
              r[i].isCompleted == !ts[i].isCompleted && !r[i].isVerified
    ensures forall i :: 0 <= i < |ts| && ts[i].id != taskId ==> r[i] == ts[i]
  {
    seq(|ts|, i requires 0 <= i < |ts| =>
      if ts[i].id == taskId then ts[i].(isCompleted := !ts[i].isCompleted, isVerified := false) else ts[i])
  }

  /** The tasks with id `taskId` get `isVerified` negated; nothing else changes,
      in particular no task's `isCompleted`. */
  function FlipVerification(ts: seq<Task>, taskId: string): (r: seq<Task>)
    ensures |r| == |ts|
    ensures forall i :: 0 <= i < |ts| ==>
              r[i].id == ts[i].id && r[i].text == ts[i].text && r[i].isCompleted == ts[i].isCompleted
    ensures forall i :: 0 <= i < |ts| && ts[i].id == taskId ==> r[i].isVerified == !ts[i].isVerified
    ensures forall i :: 0 <= i < |ts| && ts[i].id != taskId ==> r[i] == ts[i]
  {
    seq(|ts|, i requires 0 <= i < |ts| =>
      if ts[i].id == taskId then ts[i].(isVerified := !ts[i].isVerified) else ts[i])
  }

  /** Flipping verification twice gives back the original list. */
  lemma FlipVerificationTwice(ts: seq<Task>, taskId: string)
    ensures FlipVerification(FlipVerification(ts, taskId), taskId) == ts
  {
    var r := FlipVerification(FlipVerification(ts, taskId), taskId);
    assert |r| == |ts|;
    forall i | 0 <= i < |ts|
      ensures r[i] == ts[i]
    {
    }
  }

  /** The tasks whose id differs from `taskId`, in their original order. */
  function RemoveTask(ts: seq<Task>, taskId: string): (r: seq<Task>)
    ensures |r| <= |ts|
    ensures forall t :: t in r ==> t in ts && t.id != taskId
  {
    if ts == [] then []
    else (if ts[0].id == taskId then [] else [ts[0]]) + RemoveTask(ts[1..], taskId)
  }

  /** Removal drops every copy of a task with that id and keeps every
      other task as often as it occurred. */
  lemma {:induction false} RemoveTaskCount(ts: seq<Task>, taskId: string, t: Task)
    ensures multiset(RemoveTask(ts, taskId))[t] == if t.id == taskId then 0 else multiset(ts)[t]
  {
    if ts != [] {
      var head := if ts[0].id == taskId then [] else [ts[0]];
      RemoveTaskCount(ts[1..], taskId, t);
      assert ts == [ts[0]] + ts[1..];
      assert multiset(ts)[t] == multiset{ts[0]}[t] + multiset(ts[1..])[t];
      assert multiset(RemoveTask(ts, taskId))[t] == multiset(head)[t] + multiset(RemoveTask(ts[1..], taskId))[t];
    }
  }

  /** Removal works piecewise, so the survivors keep their relative order. */
  lemma {:induction false} RemoveTaskAppend(a: seq<Task>, b: seq<Task>, taskId: string)
    ensures RemoveTask(a + b, taskId) == RemoveTask(a, taskId) + RemoveTask(b, taskId)
  {
    if a == [] {
      assert a + b == b;
    } else {
      var head := if a[0].id == taskId then [] else [a[0]];
      assert (a + b)[0] == a[0];
      assert (a + b)[1..] == a[1..] + b;
      calc {
        RemoveTask(a + b, taskId);
        head + RemoveTask(a[1..] + b, taskId);
        { RemoveTaskAppend(a[1..], b, taskId); }
        head + (RemoveTask(a[1..], taskId) + RemoveTask(b, taskId));
        (head + RemoveTask(a[1..], taskId)) + RemoveTask(b, taskId);
        RemoveTask(a, taskId) + RemoveTask(b, taskId);
      }
    }
  }

  /** Removing a task that is not there changes nothing. */
  lemma {:induction false} RemoveAbsentTask(ts: seq<Task>, taskId: string)
    requires forall i :: 0 <= i < |ts| ==> ts[i].id != taskId
    ensures RemoveTask(ts, taskId) == ts
  {
    if ts != [] {
      RemoveAbsentTask(ts[1..], taskId);
      assert ts == [ts[0]] + ts[1..];
    }
  }

  // ---------------------------------------------------------------------------
  // The handlers
  // ---------------------------------------------------------------------------

  /** `savePenalty`: the penalty becomes the edited text, whatever it is
      (the empty string included); nothing else changes. Always emitted. */
  function SavePenalty(plan: WeeklyPlan, penaltyInput: string): (r: WeeklyPlan)
    ensures r.penalty == penaltyInput
    ensures r.tasks == plan.tasks && r.id == plan.id && r.weekStart == plan.weekStart
  {
    plan.(penalty := penaltyInput)
  }

  /** The penalty banner's text: the penalty, or a placeholder when it is empty. */
  function PenaltyBanner(plan: WeeklyPlan): (banner: string)
    ensures |banner| > 0
    ensures plan.penalty != "" ==> banner == plan.penalty
  {
    if plan.penalty == "" then "No penalty set!" else plan.penalty
  }

  /** Saving a penalty is what the banner then shows; saving the empty text
      brings back the placeholder. */
  lemma SavePenaltyShown(plan: WeeklyPlan, penaltyInput: string)
    ensures penaltyInput != "" ==> PenaltyBanner(SavePenalty(plan, penaltyInput)) == penaltyInput
    ensures penaltyInput == "" ==> PenaltyBanner(SavePenalty(plan, penaltyInput)) == "No penalty set!"
  {
  }

  /** `addTask`: blank text emits nothing; otherwise one new open task with the
      fresh id and the text as typed is appended to `userId`'s list. The
      handler does not look at who is acting. */
  function AddTask(plan: WeeklyPlan, userId: UserId, newTaskText: string, freshId: string): (r: Option<WeeklyPlan>)
    ensures r.None? <==> IsBlank(newTaskText)
    ensures r.Some? ==>
              r.value.tasks.Of(userId) == plan.tasks.Of(userId) + [Task(freshId, newTaskText, false, false)] &&
              r.value.tasks.Of(Partner(userId)) == plan.tasks.Of(Partner(userId)) &&
              r.value.id == plan.id && r.value.weekStart == plan.weekStart && r.value.penalty == plan.penalty
  {
    TrimEmptyIffBlank(newTaskText);
    if Trim(newTaskText) == [] then None
    else
      var newTask := Task(freshId, newTaskText, false, false);
      Some(plan.(tasks := plan.tasks.With(userId, plan.tasks.Of(userId) + [newTask])))
  }

  /** `toggleComplete`: only the acting user's own list may be toggled;
      otherwise nothing is emitted. It does not refuse verified tasks. */
  function ToggleComplete(plan: WeeklyPlan, currentUser: UserId, userId: UserId, taskId: string): (r: Option<WeeklyPlan>)
    ensures r.None? <==> userId != currentUser
    ensures r.Some? ==>
              r.value.tasks.Of(userId) == FlipCompletion(plan.tasks.Of(userId), taskId) &&
              r.value.tasks.Of(Partner(userId)) == plan.tasks.Of(Partner(userId)) &&
              r.value.id == plan.id && r.value.weekStart == plan.weekStart && r.value.penalty == plan.penalty
  {
    if userId != currentUser then None
    else Some(plan.(tasks := plan.tasks.With(userId, FlipCompletion(plan.tasks.Of(userId), taskId))))
  }

  /** `toggleVerify`: the acting user may never verify their own tasks;
      otherwise the owner's matching tasks get `isVerified` flipped, whether or
      not they are completed. */
  function ToggleVerify(plan: WeeklyPlan, currentUser: UserId, taskOwnerId: UserId, taskId: string): (r: Option<WeeklyPlan>)
    ensures r.None? <==> currentUser == taskOwnerId
    ensures r.Some? ==>
              r.value.tasks.Of(taskOwnerId) == FlipVerification(plan.tasks.Of(taskOwnerId), taskId) &&
              r.value.tasks.Of(Partner(taskOwnerId)) == plan.tasks.Of(Partner(taskOwnerId)) &&
              r.value.id == plan.id && r.value.weekStart == plan.weekStart && r.value.penalty == plan.penalty
  {
    if currentUser == taskOwnerId then None
    else Some(plan.(tasks := plan.tasks.With(taskOwnerId, FlipVerification(plan.tasks.Of(taskOwnerId), taskId))))
  }

  /** Verifying twice (verify, then undo) restores the plan exactly. */
  lemma ToggleVerifyTwice(plan: WeeklyPlan, currentUser: UserId, taskOwnerId: UserId, taskId: string)
    requires currentUser != taskOwnerId
    ensures ToggleVerify(plan, currentUser, taskOwnerId, taskId).Some?
    ensures ToggleVerify(ToggleVerify(plan, currentUser, taskOwnerId, taskId).value, currentUser, taskOwnerId, taskId)
            == Some(plan)
  {
    var once := ToggleVerify(plan, currentUser, taskOwnerId, taskId).value;
    var twice := ToggleVerify(once, currentUser, taskOwnerId, taskId).value;
    FlipVerificationTwice(plan.tasks.Of(taskOwnerId), taskId);
    PartnerInvolution(taskOwnerId, User1);
    PartnerInvolution(taskOwnerId, User2);
    assert twice.tasks.Of(User1) == plan.tasks.Of(User1);
    assert twice.tasks.Of(User2) == plan.tasks.Of(User2);
  }

  /** `deleteTask`: the tasks with the given id leave `userId`'s list. There is
      no ownership check and no check of the verification flag; it is always
      emitted. */
  function DeleteTask(plan: WeeklyPlan, userId: UserId, taskId: string): (r: WeeklyPlan)
    ensures r.tasks.Of(userId) == RemoveTask(plan.tasks.Of(userId), taskId)
    ensures r.tasks.Of(Partner(userId)) == plan.tasks.Of(Partner(userId))
    ensures r.id == plan.id && r.weekStart == plan.weekStart && r.penalty == plan.penalty
  {
    plan.(tasks := plan.tasks.With(userId, RemoveTask(plan.tasks.Of(userId), taskId)))
  }

  // ---------------------------------------------------------------------------
  // Column metrics
  // ---------------------------------------------------------------------------

  /** Every task of the list is verified. */
  predicate AllVerified(ts: seq<Task>)
  {
    forall i :: 0 <= i < |ts| ==> ts[i].isVerified
  }

  /** `completedCount`: the number of verified tasks. */
  function VerifiedCount(ts: seq<Task>): (n: nat)
    ensures n <= |ts|
    ensures n == |ts| <==> AllVerified(ts)
    ensures n == 0 <==> forall i :: 0 <= i < |ts| ==> !ts[i].isVerified
    ensures |ts| == 1 ==> n == (if ts[0].isVerified then 1 else 0)
  {
    if ts == [] then 0
    else (if ts[0].isVerified then 1 else 0) + VerifiedCount(ts[1..])
  }

  /** Counting works piecewise: the verified tasks of two lists together are
      those of the first plus those of the second. */
  lemma {:induction false} VerifiedCountAppend(a: seq<Task>, b: seq<Task>)
    ensures VerifiedCount(a + b) == VerifiedCount(a) + VerifiedCount(b)
  {
    if a == [] {
      assert a + b == b;
    } else {
      assert (a + b)[0] == a[0];
      assert (a + b)[1..] == a[1..] + b;
      VerifiedCountAppend(a[1..], b);
    }
  }

  /** `progress`: the verified share in percent, 0 for an empty list. */
  function Progress(ts: seq<Task>): (p: real)
    ensures 0.0 <= p <= 100.0
    ensures |ts| == 0 ==> p == 0.0
    ensures p == 100.0 <==> |ts| > 0 && AllVerified(ts)
  {
    var completedCount := VerifiedCount(ts);
    var totalCount := |ts|;
    if totalCount == 0 then 0.0
    else
      RatioBounds(completedCount, totalCount);
      (completedCount as real / totalCount as real) * 100.0
  }

  /** `c / t` lies in [0, 1] and is 1 exactly when `c == t`. */
  lemma RatioBounds(c: nat, t: nat)
    requires 0 < t && c <= t
    ensures 0.0 <= c as real / t as real <= 1.0
    ensures c as real / t as real == 1.0 <==> c == t
  {
    var q := c as real / t as real;
    assert q * t as real == c as real;
    if q == 1.0 {
      assert c as real == t as real;
    }
  }

  /** `isFail`, the "Potential Penalty!" flag: there are tasks and not all of
      them are verified. */
  function IsFail(ts: seq<Task>): (fail: bool)
    ensures fail <==> |ts| > 0 && exists i :: 0 <= i < |ts| && !ts[i].isVerified
  {
    var completedCount := VerifiedCount(ts);
    var totalCount := |ts|;
    totalCount > 0 && completedCount < totalCount
  }

  /** The flag is up exactly when the progress bar is short of 100 on a
      non-empty list. */
  lemma IsFailIffIncomplete(ts: seq<Task>)
    ensures IsFail(ts) <==> |ts| > 0 && Progress(ts) < 100.0
  {
  }
}
