/** The evaluator of task completions behind the "Check" button, as a
    specification. For each task id of the callback in turn it looks the
    task up and decides whether the presser has done it: a kind "11" task is
    done when a completion record exists, a kind "22" task when the presser
    is currently a member of that task's chat (and then a completion record is
    written on the spot), any other kind never. A done task credits its
    reward to the presser's user row. The first id whose task is missing,
    whose kind "22" task names no chat, or which is done by a presser without
    a user row, stops the handler with an error, keeping what was written
    before the error. */
module Evaluation {
  import opened Wrappers
  import opened Entities
  import opened Membership
  import opened Callback
  import opened TaskQueries

  /** What the evaluator sees on one button press: who pressed, whether
      the presser has a user row to credit, the table of tasks, the completion
      records before the press, and the presser's membership status in each
      chat. */
  datatype Press = Press(
    user: UserId,
    known: bool,
    tasks: seq<Task>,
    records: seq<UserTask>,
    chatStatus: string -> ChatMemberStatus)

  /** Evaluating `id` throws: no task has that id, that task is kind "22"
      and names no chat to check, or the task is done and its reward is
      credited to a user row that does not exist. */
  predicate Faulty(p: Press, id: TaskId)
  {
    match FindTask(p.tasks, id)
    case None => true
    case Some(t) => (Kind(id) == MembershipChecked && t.chatId.None?) || (!p.known && Done(p, id))
  }

  /** The error of a faulty id. */
  function FaultOf(p: Press, id: TaskId): Fault
  {
    match FindTask(p.tasks, id)
    case None => UnknownTask(id)
    case Some(t) => if Kind(id) == MembershipChecked && t.chatId.None? then TaskWithoutChat(id) else UnknownUser(p.user)
  }

  /** The presser has done task `id`. */
  predicate Done(p: Press, id: TaskId)
  {
    match FindTask(p.tasks, id)
    case None => false
    case Some(t) =>
      match Kind(id)
      case SelfReported => UserTask(p.user, id) in p.records
      case MembershipChecked => t.chatId.Some? && StillMember(p.chatStatus(t.chatId.value))
      case Unchecked => false
  }

  /** The reward of task `id` (0 when there is no such task). */
  function Reward(p: Press, id: TaskId): int
  {
    match FindTask(p.tasks, id)
    case None => 0
    case Some(t) => t.reward
  }

  /** The position of the first id that throws, or `|ids|` when none does. */
  function FirstFault(p: Press, ids: seq<TaskId>): (k: nat)
    ensures k <= |ids|
    ensures forall j :: 0 <= j < k ==> !Faulty(p, ids[j])
    ensures k < |ids| ==> Faulty(p, ids[k])
    decreases |ids|
  {
    if ids == [] then 0
    else if Faulty(p, ids[0]) then 0
    else 1 + FirstFault(p, ids[1..])
  }

  /** The ids found done among the first `n`, in callback order. */
  function Completed(p: Press, ids: seq<TaskId>, n: nat): seq<TaskId>
    requires n <= |ids|
  {
    if n == 0 then []
    else Completed(p, ids, n - 1) + (if Done(p, ids[n - 1]) then [ids[n - 1]] else [])
  }

  /** The ids found not done among the first `n`, in callback order. */
  function Uncompleted(p: Press, ids: seq<TaskId>, n: nat): seq<TaskId>
    requires n <= |ids|
  {
    if n == 0 then []
    else Uncompleted(p, ids, n - 1) + (if Done(p, ids[n - 1]) then [] else [ids[n - 1]])
  }

  /** The rewards credited while evaluating the first `n` ids: one credit
      per id found done. */
  function Earned(p: Press, ids: seq<TaskId>, n: nat): int
    requires n <= |ids|
  {
    if n == 0 then 0
    else Earned(p, ids, n - 1) + (if Done(p, ids[n - 1]) then Reward(p, ids[n - 1]) else 0)
  }

  /** The completion record written when `id` is found done, before its
      reward is credited: one for a kind "22" id, whether or not such a record
      already exists, none for any other. */
  function Written(p: Press, id: TaskId): seq<UserTask>
  {
    if Kind(id) == MembershipChecked && Done(p, id) then [UserTask(p.user, id)] else []
  }

  /** The completion records written while evaluating the first `n` ids. */
  function Recorded(p: Press, ids: seq<TaskId>, n: nat): seq<UserTask>
    requires n <= |ids|
  {
    if n == 0 then []
    else Recorded(p, ids, n - 1) + Written(p, ids[n - 1])
  }

  /** Evaluating one more id appends to each list by whether it is done. */
  lemma {:induction false} Advance(p: Press, ids: seq<TaskId>, i: nat, done: bool)
    requires i < |ids| && done == Done(p, ids[i])
    ensures Completed(p, ids, i + 1) == Completed(p, ids, i) + (if done then [ids[i]] else [])
    ensures Uncompleted(p, ids, i + 1) == Uncompleted(p, ids, i) + (if done then [] else [ids[i]])
    ensures Earned(p, ids, i + 1) == Earned(p, ids, i) + (if done then Reward(p, ids[i]) else 0)
    ensures Recorded(p, ids, i + 1)
            == Recorded(p, ids, i) + (if Kind(ids[i]) == MembershipChecked && done then [UserTask(p.user, ids[i])] else [])
  {
  }

  /** The total reward of a list of ids, one credit per occurrence. */
  function Gain(p: Press, xs: seq<TaskId>): int
    decreases |xs|
  {
    if xs == [] then 0
    else Gain(p, xs[..|xs| - 1]) + Reward(p, xs[|xs| - 1])
  }

  /** What is credited is the sum of the rewards of the completed ids, each
      counted as often as it occurs. */
  lemma {:induction false} EarnedIsGainOfCompleted(p: Press, ids: seq<TaskId>, n: nat)
    requires n <= |ids|
    ensures Earned(p, ids, n) == Gain(p, Completed(p, ids, n))
  {
    if n > 0 {
      var c, x := Completed(p, ids, n - 1), ids[n - 1];
      var g := if Done(p, x) then Reward(p, x) else 0;
      assert Gain(p, Completed(p, ids, n)) == Gain(p, c) + g by {
        if Done(p, x) {
          GainSnoc(p, c, x);
        } else {
          assert Completed(p, ids, n) == c + [];
          assert c + [] == c;
        }
      }
      EarnedIsGainOfCompleted(p, ids, n - 1);
    }
  }

  /** One more id adds its reward to the total. */
  lemma {:induction false} GainSnoc(p: Press, xs: seq<TaskId>, x: TaskId)
    ensures Gain(p, xs + [x]) == Gain(p, xs) + Reward(p, x)
  {
    var ys := xs + [x];
    assert ys[..|ys| - 1] == xs && ys[|ys| - 1] == x;
  }

  /** The completed and uncompleted lists together are as long as the
      evaluated prefix. */
  lemma {:induction false} PartitionSizes(p: Press, ids: seq<TaskId>, n: nat)
    requires n <= |ids|
    ensures |Completed(p, ids, n)| + |Uncompleted(p, ids, n)| == n
  {
    if n > 0 {
      PartitionSizes(p, ids, n - 1);
    }
  }

  /** The completed and uncompleted lists split the evaluated ids between
      them: every id lands in exactly one of the two, as often as it occurs. */
  lemma {:induction false} Partition(p: Press, ids: seq<TaskId>, n: nat)
    requires n <= |ids|
    ensures multiset(Completed(p, ids, n)) + multiset(Uncompleted(p, ids, n)) == multiset(ids[..n])
  {
    if n > 0 {
      Partition(p, ids, n - 1);
      MultisetStep(Completed(p, ids, n), Uncompleted(p, ids, n), Completed(p, ids, n - 1), Uncompleted(p, ids, n - 1),
                   ids, n, Done(p, ids[n - 1]));
    }
  }

  /** Adding the next id to either side of a split of the first `n - 1` ids
      gives a split of the first `n`. */
  lemma {:induction false} MultisetStep(c1: seq<TaskId>, u1: seq<TaskId>, c: seq<TaskId>, u: seq<TaskId>, ids: seq<TaskId>, n: nat,
                                        done: bool)
    requires 0 < n <= |ids|
    requires multiset(c) + multiset(u) == multiset(ids[..n - 1])
    requires c1 == c + (if done then [ids[n - 1]] else [])
    requires u1 == u + (if done then [] else [ids[n - 1]])
    ensures multiset(c1) + multiset(u1) == multiset(ids[..n])
  {
    var x := ids[n - 1];
    assert ids[..n] == ids[..n - 1] + [x];
    assert multiset(ids[..n]) == multiset(ids[..n - 1]) + multiset{x};
    if done {
      assert multiset(c1) == multiset(c) + multiset{x} && u1 == u + [] == u;
    } else {
      assert multiset(u1) == multiset(u) + multiset{x} && c1 == c + [] == c;
    }
  }

  /** The completed ids are evaluated ids found done, the uncompleted ones
      evaluated ids found not done. */
  lemma {:induction false} PartitionByDone(p: Press, ids: seq<TaskId>, n: nat)
    requires n <= |ids|
    ensures forall id :: id in Completed(p, ids, n) ==> id in ids[..n] && Done(p, id)
    ensures forall id :: id in Uncompleted(p, ids, n) ==> id in ids[..n] && !Done(p, id)
  {
    if n > 0 {
      PartitionByDone(p, ids, n - 1);
      assert ids[..n] == ids[..n - 1] + [ids[n - 1]];
    }
  }

  /** When every evaluated id is done the completed list is all of them, in
      order, and nothing is left uncompleted. */
  lemma {:induction false} AllDone(p: Press, ids: seq<TaskId>, n: nat)
    requires n <= |ids|
    requires forall j :: 0 <= j < n ==> Done(p, ids[j])
    ensures Completed(p, ids, n) == ids[..n] && Uncompleted(p, ids, n) == []
  {
    if n > 0 {
      AllDone(p, ids, n - 1);
      var x := ids[n - 1];
      assert Done(p, x);
      assert Uncompleted(p, ids, n) == [] + [];
      assert ids[..n] == ids[..n - 1] + [x];
    }
  }

  /** Completion records are written only for ids that are also completed:
      with nothing completed, nothing is recorded and nothing is credited. */
  lemma {:induction false} NothingCompletedNothingRecorded(p: Press, ids: seq<TaskId>, n: nat)
    requires n <= |ids|
    requires Completed(p, ids, n) == []
    ensures Recorded(p, ids, n) == []
    ensures Earned(p, ids, n) == 0
  {
    if n > 0 {
      assert |Completed(p, ids, n - 1)| <= |Completed(p, ids, n)|;
      NothingCompletedNothingRecorded(p, ids, n - 1);
    }
  }

  /** With no evaluated id done, nothing is completed. */
  lemma {:induction false} NoneDone(p: Press, ids: seq<TaskId>, n: nat)
    requires n <= |ids|
    requires forall j :: 0 <= j < n ==> !Done(p, ids[j])
    ensures Completed(p, ids, n) == []
  {
    if n > 0 {
      NoneDone(p, ids, n - 1);
    }
  }

  /** A presser without a user row is stopped by the first id found done, so
      nothing evaluated before the stop is done, recorded or credited; when
      no id stops the press, its reply is the "nothing done" alert. */
  lemma {:induction false} UnknownPresserEarnsNothing(p: Press, ids: seq<TaskId>)
    requires !p.known
    ensures var k := FirstFault(p, ids);
      && Completed(p, ids, k) == [] && Recorded(p, ids, k) == [] && Earned(p, ids, k) == 0
      && (k == |ids| ==> Outcome(p, ids) == [TaskAlert])
  {
    var k := FirstFault(p, ids);
    forall j | 0 <= j < k
      ensures !Done(p, ids[j])
    {
      assert !Faulty(p, ids[j]);
    }
    NoneDone(p, ids, k);
    NothingCompletedNothingRecorded(p, ids, k);
  }

  /** With non-negative rewards, an evaluation never lowers the balance. */
  lemma {:induction false} EarnedNonNegative(p: Press, ids: seq<TaskId>, n: nat)
    requires n <= |ids|
    requires forall t :: t in p.tasks ==> t.reward >= 0
    ensures Earned(p, ids, n) >= 0
  {
    if n > 0 {
      EarnedNonNegative(p, ids, n - 1);
    }
  }

  /** The records written during an evaluation are all for kind "22" ids of
      the presser, so they never change whether a kind "11" id counts as
      done: the evaluator may look records up as it goes. */
  lemma {:induction false} RecordedAreMembershipChecked(p: Press, ids: seq<TaskId>, n: nat)
    requires n <= |ids|
    ensures forall r :: r in Recorded(p, ids, n) ==> r.userId == p.user && Kind(r.taskId) == MembershipChecked
  {
    if n > 0 {
      RecordedAreMembershipChecked(p, ids, n - 1);
    }
  }

  /** A kind "11" task already found done, by a presser with a user row, is
      found done again by a later press that lists it, so that press gets
      past it and credits its reward again. */
  lemma {:induction false} SelfReportedCreditedAgain(p: Press, id: TaskId, more: seq<UserTask>)
    requires p.known && Kind(id) == SelfReported && Done(p, id)
    ensures var again := p.(records := p.records + more);
      && FirstFault(again, [id]) == 1
      && Completed(again, [id], 1) == [id] && Earned(again, [id], 1) == Reward(p, id)
  {
    var again := p.(records := p.records + more);
    assert Done(again, id) && !Faulty(again, id);
    assert [id][1..] == [];
  }

  /** A kind "22" task found done writes a completion record even when the
      same record was written by an earlier press: records are not kept
      unique. */
  lemma {:induction false} MembershipCheckedRecordedAgain(p: Press, id: TaskId)
    requires Kind(id) == MembershipChecked && Done(p, id)
    ensures var again := p.(records := p.records + Recorded(p, [id], 1));
      UserTask(p.user, id) in again.records && Recorded(again, [id], 1) == [UserTask(p.user, id)]
  {
    var again := p.(records := p.records + Recorded(p, [id], 1));
    assert Recorded(p, [id], 1) == [UserTask(p.user, id)];
    assert Done(again, id);
  }

  /** The first faulty id is the one at `i` when all ids before it are sound. */
  lemma {:induction false} FaultAt(p: Press, ids: seq<TaskId>, i: nat)
    requires i < |ids| && Faulty(p, ids[i])
    requires forall j :: 0 <= j < i ==> !Faulty(p, ids[j])
    ensures FirstFault(p, ids) == i
    ensures Outcome(p, ids) == [Thrown(FaultOf(p, ids[i]))]
  {
  }

  /** With no faulty id every id is evaluated. */
  lemma {:induction false} NoFault(p: Press, ids: seq<TaskId>)
    requires forall j :: 0 <= j < |ids| ==> !Faulty(p, ids[j])
    ensures FirstFault(p, ids) == |ids|
  {
  }

  /** The replies of an evaluation: the error of the first faulty id;
      otherwise an alert when nothing was done, "all done" when every id was,
      and else the list of tasks edited down to the ids left, with a "Check"
      button for exactly those ids and a done counter of how many were
      completed in this press. */
  function Outcome(p: Press, ids: seq<TaskId>): seq<Reply>
  {
    var k := FirstFault(p, ids);
    if k < |ids| then [Thrown(FaultOf(p, ids[k]))]
    else
      var completed := Completed(p, ids, |ids|);
      if |completed| == 0 then [TaskAlert]
      else if |completed| == |ids| then [TasksDone]
      else [TaskListEdited(CallbackData(Uncompleted(p, ids, |ids|)), |completed|)]
  }

  /** An edited task list is replied exactly when no id throws and some but
      not all ids are found done; it then lists the ids left uncompleted, which
      are not empty. */
  lemma {:induction false} EditedOutcome(p: Press, ids: seq<TaskId>)
    requires Outcome(p, ids)[0].TaskListEdited?
    ensures FirstFault(p, ids) == |ids|
    ensures 0 < |Completed(p, ids, |ids|)| < |ids|
    ensures Outcome(p, ids) == [TaskListEdited(CallbackData(Uncompleted(p, ids, |ids|)), |Completed(p, ids, |ids|)|)]
    ensures Uncompleted(p, ids, |ids|) != []
  {
    PartitionSizes(p, ids, |ids|);
  }

  /** The edited "Check" button of a callback lists exactly the ids left
      uncompleted, and pressing it decodes back to that list. */
  lemma {:induction false} EditedButtonListsRemaining(p: Press, data: string)
    requires Command(data) == TaskCommand
    requires Outcome(p, TaskIds(data))[0].TaskListEdited?
    ensures var ids := TaskIds(data);
      && TaskIds(Outcome(p, ids)[0].data) == Uncompleted(p, ids, |ids|)
      && Command(Outcome(p, ids)[0].data) == TaskCommand
  {
    var ids := TaskIds(data);
    EditedOutcome(p, ids);
    var rest := Uncompleted(p, ids, |ids|);
    PartitionByDone(p, ids, |ids|);
    assert ids[..|ids|] == ids;
    assert forall id :: id in rest ==> id in ids;
    ReencodeDecoded(data, rest);
  }
}
