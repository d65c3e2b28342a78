// The actions the weekly planner's render offers to the logged-in user, as a
// small state machine over plans. The handlers themselves guard little; the
// render guards more, and only the combination keeps "verified implies
// completed" and never deletes a verified task.

module PlannerView {
  import opened Types
  import opened WeeklyPlanner

  /** A click or key press the planner screen can produce. */
  datatype Action =
    | CheckCompleted(owner: UserId, taskId: string)        // the completion checkbox
    | Verify(owner: UserId, taskId: string)                // "Verify Now" and "(undo)"
    | Delete(owner: UserId, taskId: string)                // the delete button
    | Add(owner: UserId, text: string, freshId: string)    // the add box
    | EditPenalty(text: string)                            // the penalty banner's Save

  /** One action taken by the user who is logged in at the time. */
  datatype Event = Event(actor: UserId, action: Action)

  /** Some task of `ts` carries id `taskId`. */
  predicate HasId(ts: seq<Task>, taskId: string)
  {
    exists i :: 0 <= i < |ts| && ts[i].id == taskId
  }

  /** The screen of `currentUser` shows a control for `action`:
      the checkbox is enabled only on the user's own unverified tasks, the
      verify control only on the partner's completed tasks, the delete button
      only on the user's own unverified tasks, the add box only in the user's
      own column, and the penalty editor to everyone. */
  function Offered(plan: WeeklyPlan, currentUser: UserId, action: Action): (offered: bool)
    ensures offered && action.CheckCompleted? ==> ToggleComplete(plan, currentUser, action.owner, action.taskId).Some?
    ensures offered && action.Verify? ==> ToggleVerify(plan, currentUser, action.owner, action.taskId).Some?
    ensures offered && (action.CheckCompleted? || action.Delete? || action.Add?) ==> action.owner == currentUser
    ensures offered && action.Verify? ==> action.owner == Partner(currentUser)
  {
    match action
    case CheckCompleted(owner, taskId) =>
      var ts := plan.tasks.Of(owner);
      owner == currentUser && exists i :: 0 <= i < |ts| && ts[i].id == taskId && !ts[i].isVerified
    case Verify(owner, taskId) =>
      var ts := plan.tasks.Of(owner);
      owner != currentUser && exists i :: 0 <= i < |ts| && ts[i].id == taskId && ts[i].isCompleted
    case Delete(owner, taskId) =>
      var ts := plan.tasks.Of(owner);
      owner == currentUser && exists i :: 0 <= i < |ts| && ts[i].id == taskId && !ts[i].isVerified
    case Add(owner, _, _) =>
      owner == currentUser
    case EditPenalty(_) =>
      true
  }

  /** The id a new task receives is not already used in its owner's list. */
  predicate FreshIdFor(plan: WeeklyPlan, action: Action)
  {
    action.Add? ==> !HasId(plan.tasks.Of(action.owner), action.freshId)
  }

  /** The plan after the handler the control invokes; a handler that emits
      nothing leaves the plan as it was. */
  function Step(plan: WeeklyPlan, currentUser: UserId, action: Action): (next: WeeklyPlan)
    ensures next.id == plan.id && next.weekStart == plan.weekStart
    ensures !action.EditPenalty? ==> next.penalty == plan.penalty
    ensures action.EditPenalty? ==> next.tasks == plan.tasks && next.penalty == action.text
  {
    var emitted :=
      match action
      case CheckCompleted(owner, taskId) => ToggleComplete(plan, currentUser, owner, taskId)
      case Verify(owner, taskId) => ToggleVerify(plan, currentUser, owner, taskId)
      case Delete(owner, taskId) => Some(DeleteTask(plan, owner, taskId))
      case Add(owner, text, freshId) => AddTask(plan, owner, text, freshId)
      case EditPenalty(text) => Some(SavePenalty(plan, text));
    if emitted.Some? then emitted.value else plan
  }

  /** Ids within the list are pairwise distinct. */
  predicate DistinctIds(ts: seq<Task>)
  {
    forall i, j :: 0 <= i < j < |ts| ==> ts[i].id != ts[j].id
  }

  /** No task of the list is verified without being completed. */
  predicate VerifiedImpliesCompleted(ts: seq<Task>)
  {
    forall i :: 0 <= i < |ts| ==> ts[i].isVerified ==> ts[i].isCompleted
  }

  /** The invariant of every plan reachable through offered actions. */
  predicate Inv(plan: WeeklyPlan)
  {
    DistinctIds(plan.tasks.Of(User1)) && VerifiedImpliesCompleted(plan.tasks.Of(User1)) &&
    DistinctIds(plan.tasks.Of(User2)) && VerifiedImpliesCompleted(plan.tasks.Of(User2))
  }

  /** With distinct ids, the task a control was rendered for is the only one
      a handler touches. */
  lemma OnlyMatch(ts: seq<Task>, i: nat, j: nat)
    requires DistinctIds(ts) && i < |ts| && j < |ts| && ts[j].id == ts[i].id
    ensures j == i
  {
  }

  /** The tail of a list with distinct ids has distinct ids, none of them the
      head's. */
  lemma DistinctTail(ts: seq<Task>)
    requires ts != [] && DistinctIds(ts)
    ensures DistinctIds(ts[1..])
    ensures forall t :: t in ts[1..] ==> t.id != ts[0].id
  {
    var rest := ts[1..];
    forall i, j | 0 <= i < j < |rest| ensures rest[i].id != rest[j].id {
      assert rest[i] == ts[i + 1] && rest[j] == ts[j + 1];
    }
    forall t | t in rest ensures t.id != ts[0].id {
      var k :| 0 <= k < |rest| && rest[k] == t;
      assert ts[k + 1] == t;
    }
  }

  /** Putting a task in front of a list with distinct ids, none of them its
      own, keeps the ids distinct. */
  lemma DistinctCons(x: Task, tail: seq<Task>)
    requires DistinctIds(tail)
    requires forall t :: t in tail ==> t.id != x.id
    ensures DistinctIds([x] + tail)
  {
    var r := [x] + tail;
    forall i, j | 0 <= i < j < |r| ensures r[i].id != r[j].id {
      assert r[j] == tail[j - 1];
      if i > 0 {
        assert r[i] == tail[i - 1];
      } else {
        assert r[j] in tail;
      }
    }
  }

  /** Removing by id keeps ids distinct and the flags of every survivor. */
  lemma {:induction false} RemoveTaskKeepsInv(ts: seq<Task>, taskId: string)
    requires DistinctIds(ts) && VerifiedImpliesCompleted(ts)
    ensures DistinctIds(RemoveTask(ts, taskId)) && VerifiedImpliesCompleted(RemoveTask(ts, taskId))
  {
    var r := RemoveTask(ts, taskId);
    if ts != [] {
      var rest := ts[1..];
      DistinctTail(ts);
      var tail := RemoveTask(rest, taskId);
      assert r == (if ts[0].id == taskId then [] else [ts[0]]) + tail;
      assert VerifiedImpliesCompleted(rest) by {
        forall i | 0 <= i < |rest| ensures rest[i].isVerified ==> rest[i].isCompleted {
          assert rest[i] == ts[i + 1];
        }
      }
      RemoveTaskKeepsInv(rest, taskId);
      if ts[0].id != taskId {
        DistinctCons(ts[0], tail);
      }
      forall i | 0 <= i < |r| ensures r[i].isVerified ==> r[i].isCompleted {
        assert r[i] in ts;
      }
    }
  }

  /** A task whose id is not the removed one survives removal. */
  lemma RemoveTaskKeeps(ts: seq<Task>, taskId: string, k: nat)
    requires k < |ts| && ts[k].id != taskId
    ensures HasId(RemoveTask(ts, taskId), ts[k].id)
  {
    var r := RemoveTask(ts, taskId);
    RemoveTaskCount(ts, taskId, ts[k]);
    assert ts[k] in multiset(ts);
    assert multiset(r)[ts[k]] == multiset(ts)[ts[k]];
    assert ts[k] in r;
    var m :| 0 <= m < |r| && r[m] == ts[k];
  }

  /** Toggling completion keeps the ids and never leaves a task verified
      but not completed, since every toggled task loses its verification. */
  lemma FlipCompletionKeepsInv(ts: seq<Task>, taskId: string)
    requires DistinctIds(ts) && VerifiedImpliesCompleted(ts)
    ensures DistinctIds(FlipCompletion(ts, taskId)) && VerifiedImpliesCompleted(FlipCompletion(ts, taskId))
  {
    var r := FlipCompletion(ts, taskId);
    forall i, j | 0 <= i < j < |r| ensures r[i].id != r[j].id {
      assert r[i].id == ts[i].id && r[j].id == ts[j].id;
    }
  }

  /** Toggling verification of a completed task, whose id no other task
      shares, never leaves a task verified but not completed. */
  lemma FlipVerificationKeepsInv(ts: seq<Task>, taskId: string, k: nat)
    requires DistinctIds(ts) && VerifiedImpliesCompleted(ts)
    requires k < |ts| && ts[k].id == taskId && ts[k].isCompleted
    ensures DistinctIds(FlipVerification(ts, taskId)) && VerifiedImpliesCompleted(FlipVerification(ts, taskId))
  {
    var r := FlipVerification(ts, taskId);
    forall i, j | 0 <= i < j < |r| ensures r[i].id != r[j].id {
      assert r[i].id == ts[i].id && r[j].id == ts[j].id;
    }
    forall i | 0 <= i < |r| && r[i].isVerified ensures r[i].isCompleted {
      if ts[i].id == taskId {
        OnlyMatch(ts, k, i);
      }
    }
  }

  /** Appending an open task with a new id keeps the invariant. */
  lemma AppendKeepsInv(ts: seq<Task>, t: Task)
    requires DistinctIds(ts) && VerifiedImpliesCompleted(ts)
    requires !HasId(ts, t.id) && !t.isVerified
    ensures DistinctIds(ts + [t]) && VerifiedImpliesCompleted(ts + [t])
  {
    var r := ts + [t];
    forall i, j | 0 <= i < j < |r| ensures r[i].id != r[j].id {
      assert r[i] == ts[i];
    }
  }

  /** One offered action, with a fresh id for an added task, keeps the
      invariant. */
  lemma StepKeepsInv(plan: WeeklyPlan, currentUser: UserId, action: Action)
    requires Inv(plan) && Offered(plan, currentUser, action) && FreshIdFor(plan, action)
    ensures Inv(Step(plan, currentUser, action))
  {
    var next := Step(plan, currentUser, action);
    match action
    case CheckCompleted(owner, taskId) =>
      FlipCompletionKeepsInv(plan.tasks.Of(owner), taskId);
      SameOtherList(plan, next, owner);
    case Verify(owner, taskId) =>
      var ts := plan.tasks.Of(owner);
      var k :| 0 <= k < |ts| && ts[k].id == taskId && ts[k].isCompleted;
      FlipVerificationKeepsInv(ts, taskId, k);
      SameOtherList(plan, next, owner);
    case Delete(owner, taskId) =>
      RemoveTaskKeepsInv(plan.tasks.Of(owner), taskId);
      SameOtherList(plan, next, owner);
    case Add(owner, text, freshId) =>
      if !IsBlank(text) {
        AppendKeepsInv(plan.tasks.Of(owner), Task(freshId, text, false, false));
        SameOtherList(plan, next, owner);
      }
    case EditPenalty(_) =>
  }

  /** The invariant holds of the list `next` keeps for the owner's partner. */
  lemma SameOtherList(plan: WeeklyPlan, next: WeeklyPlan, owner: UserId)
    requires Inv(plan)
    requires next.tasks.Of(Partner(owner)) == plan.tasks.Of(Partner(owner))
    requires DistinctIds(next.tasks.Of(owner)) && VerifiedImpliesCompleted(next.tasks.Of(owner))
    ensures Inv(next)
  {
    PartnerInvolution(owner, User1);
    PartnerInvolution(owner, User2);
  }

  /** No offered action removes a task that is verified: its id is still in
      its owner's list afterwards. */
  lemma StepKeepsVerifiedTasks(plan: WeeklyPlan, currentUser: UserId, action: Action, u: UserId, k: nat)
    requires Inv(plan) && Offered(plan, currentUser, action)
    requires k < |plan.tasks.Of(u)| && plan.tasks.Of(u)[k].isVerified
    ensures HasId(Step(plan, currentUser, action).tasks.Of(u), plan.tasks.Of(u)[k].id)
  {
    var ts := plan.tasks.Of(u);
    var r := Step(plan, currentUser, action).tasks.Of(u);
    PartnerInvolution(u, User1);
    PartnerInvolution(u, User2);
    if action.Delete? && action.owner == u {
      var taskId := action.taskId;
      var j :| 0 <= j < |ts| && ts[j].id == taskId && !ts[j].isVerified;
      assert ts[k].id != taskId;
      RemoveTaskKeeps(ts, taskId, k);
    } else {
      KeepsIndex(plan, currentUser, action, u, k);
    }
  }

  /** `r` has every task of `ts` at the same place, with the same id. */
  predicate KeepsIds(ts: seq<Task>, r: seq<Task>)
  {
    |ts| <= |r| && forall i :: 0 <= i < |ts| ==> r[i].id == ts[i].id
  }

  /** The two toggles keep every task of every list at its place, with its id. */
  lemma TogglesKeepIds(plan: WeeklyPlan, currentUser: UserId, action: Action, u: UserId)
    requires action.CheckCompleted? || action.Verify?
    ensures KeepsIds(plan.tasks.Of(u), Step(plan, currentUser, action).tasks.Of(u))
  {
    PartnerInvolution(action.owner, u);
    if action.CheckCompleted? {
      var r := ToggleComplete(plan, currentUser, action.owner, action.taskId);
      if r.Some? && action.owner == u {
        assert Step(plan, currentUser, action).tasks.Of(u) == FlipCompletion(plan.tasks.Of(u), action.taskId);
      }
    } else {
      var r := ToggleVerify(plan, currentUser, action.owner, action.taskId);
      if r.Some? && action.owner == u {
        assert Step(plan, currentUser, action).tasks.Of(u) == FlipVerification(plan.tasks.Of(u), action.taskId);
      }
    }
  }

  /** Adding, editing the penalty and deleting in another list keep every task
      of `u`'s list at its place, with its id. */
  lemma OthersKeepIds(plan: WeeklyPlan, currentUser: UserId, action: Action, u: UserId)
    requires action.Add? || action.EditPenalty? || (action.Delete? && action.owner != u)
    ensures KeepsIds(plan.tasks.Of(u), Step(plan, currentUser, action).tasks.Of(u))
  {
    var ts := plan.tasks.Of(u);
    if action.Add? {
      PartnerInvolution(action.owner, u);
      var r := AddTask(plan, action.owner, action.text, action.freshId);
      if r.Some? && action.owner == u {
        assert Step(plan, currentUser, action).tasks.Of(u) == ts + [Task(action.freshId, action.text, false, false)];
      }
    } else if action.Delete? {
      PartnerInvolution(action.owner, u);
    }
  }

  /** Every action other than a delete in `u`'s own list keeps task `k` of
      that list at its place, with its id. */
  lemma KeepsIndex(plan: WeeklyPlan, currentUser: UserId, action: Action, u: UserId, k: nat)
    requires !(action.Delete? && action.owner == u)
    requires k < |plan.tasks.Of(u)|
    ensures k < |Step(plan, currentUser, action).tasks.Of(u)|
    ensures Step(plan, currentUser, action).tasks.Of(u)[k].id == plan.tasks.Of(u)[k].id
  {
    if action.CheckCompleted? || action.Verify? {
      TogglesKeepIds(plan, currentUser, action, u);
    } else {
      OthersKeepIds(plan, currentUser, action, u);
    }
  }

  /** The plan after a run of events, each taken by its actor. */
  function Run(plan: WeeklyPlan, events: seq<Event>): WeeklyPlan
    decreases |events|
  {
    if events == [] then plan
    else Run(Step(plan, events[0].actor, events[0].action), events[1..])
  }

  /** Every event of the run was offered on its actor's screen at the time it
      happened, and every added task got an id new to its list. */
  predicate AllOffered(plan: WeeklyPlan, events: seq<Event>)
    decreases |events|
  {
    events == [] ||
    (Offered(plan, events[0].actor, events[0].action) &&
     FreshIdFor(plan, events[0].action) &&
     AllOffered(Step(plan, events[0].actor, events[0].action), events[1..]))
  }

  /** Every plan reachable through offered actions keeps the invariant. */
  lemma {:induction false} RunKeepsInv(plan: WeeklyPlan, events: seq<Event>)
    requires Inv(plan) && AllOffered(plan, events)
    ensures Inv(Run(plan, events))
    decreases |events|
  {
    if events != [] {
      StepKeepsInv(plan, events[0].actor, events[0].action);
      RunKeepsInv(Step(plan, events[0].actor, events[0].action), events[1..]);
    }
  }

  // ---------------------------------------------------------------------------
  // The seed plan
  // ---------------------------------------------------------------------------

  /** The plan the application starts with; `weekStart` is the start-up time. */
  function InitialPlan(weekStart: string): (plan: WeeklyPlan)
    ensures Inv(plan)
    ensures |plan.tasks.Of(User1)| == 2 && |plan.tasks.Of(User2)| == 1
  {
    WeeklyPlan("week-1", weekStart, "Buy Milk Tea \U{1F9CB}", TaskLists(
      [Task("101", "Learn 20 Vocab words", false, false),
       Task("102", "Do 1 Listening Test", true, false)],
      [Task("201", "Write 1 Email", false, false)]))
  }

  /** From the seed plan, no screen sequence ever shows a task verified but
      not completed. */
  lemma SeedRunsKeepInv(weekStart: string, events: seq<Event>)
    requires AllOffered(InitialPlan(weekStart), events)
    ensures VerifiedImpliesCompleted(Run(InitialPlan(weekStart), events).tasks.Of(User1))
    ensures VerifiedImpliesCompleted(Run(InitialPlan(weekStart), events).tasks.Of(User2))
  {
    RunKeepsInv(InitialPlan(weekStart), events);
  }

  /** The complete-verify-uncomplete scenario on the seed plan: completing
      task 101, having the partner verify it, then unchecking it again leaves
      it neither completed nor verified. */
  lemma SeedScenario(weekStart: string)
    ensures
      var p0 := InitialPlan(weekStart);
      var p1 := Step(p0, User1, CheckCompleted(User1, "101"));
      var p2 := Step(p1, User2, Verify(User1, "101"));
      var p3 := Step(p2, User1, CheckCompleted(User1, "101"));
      p1.tasks.Of(User1)[0] == Task("101", "Learn 20 Vocab words", true, false) &&
      p2.tasks.Of(User1)[0] == Task("101", "Learn 20 Vocab words", true, true) &&
      p3.tasks.Of(User1)[0] == Task("101", "Learn 20 Vocab words", false, false) &&
      !Offered(p2, User1, CheckCompleted(User1, "101"))
  {
    var p0 := InitialPlan(weekStart);
    var p1 := Step(p0, User1, CheckCompleted(User1, "101"));
    var p2 := Step(p1, User2, Verify(User1, "101"));
    assert p1.tasks.Of(User1)[0] == Task("101", "Learn 20 Vocab words", true, false);
    assert p2.tasks.Of(User1)[0] == Task("101", "Learn 20 Vocab words", true, true);
  }

  // ---------------------------------------------------------------------------
  // The handlers alone do not keep the invariant
  // ---------------------------------------------------------------------------

  /** The verify handler accepts a task that is not completed: on the seed
      plan, the partner's verification of the open task 101 yields a task that
      is verified but not completed. The render never offers this. */
  lemma VerifyHandlerAcceptsOpenTask(weekStart: string)
    ensures
      var p := InitialPlan(weekStart);
      var r := ToggleVerify(p, User2, User1, "101");
      r.Some? && r.value.tasks.Of(User1)[0].isVerified && !r.value.tasks.Of(User1)[0].isCompleted &&
      !Offered(p, User2, Verify(User1, "101"))
  {
    var p := InitialPlan(weekStart);
    assert p.tasks.Of(User1)[0].id == "101" && !p.tasks.Of(User1)[0].isCompleted;
    assert p.tasks.Of(User1)[1].id != "101";
  }

  /** The delete handler removes a verified task, which the render never
      offers: after the partner verifies task 102 of the seed plan, deleting
      it still succeeds. */
  lemma DeleteHandlerRemovesVerifiedTask(weekStart: string)
    ensures
      var r := ToggleVerify(InitialPlan(weekStart), User2, User1, "102");
      r.Some? &&
      r.value.tasks.Of(User1)[1] == Task("102", "Do 1 Listening Test", true, true) &&
      !Offered(r.value, User1, Delete(User1, "102")) &&
      DeleteTask(r.value, User1, "102").tasks.Of(User1) == [Task("101", "Learn 20 Vocab words", false, false)]
  {
    var p := ToggleVerify(InitialPlan(weekStart), User2, User1, "102").value;
    var ts := p.tasks.Of(User1);
    assert ts[0] == Task("101", "Learn 20 Vocab words", false, false);
    assert ts[1] == Task("102", "Do 1 Listening Test", true, true);
    assert ts[1..][1..] == [];
    assert RemoveTask(ts[1..], "102") == [];
  }
}
