/** The bot's update handlers over its store: the start command with its
    referral credit, the text handler (bonus, information buttons,
    withdrawal request, task offer, and the follow-up that reads a payout
    number or a withdrawal amount depending on the user's status), the
    chat-join-request handler that records completions, and the callback
    handler (membership re-check, payout-number prompt, task evaluation).
    Each update is handled to completion before the next; the current time,
    membership statuses and the random reaction are inputs. */
module Bot {
  import opened Wrappers
  import opened Entities
  import opened Membership
  import opened JsText
  import opened Callback
  import opened TaskQueries
  import opened Evaluation
  import opened Rules

  // ------------------------------------------------ effects of the handlers

  /** The reply after the start command: the main menu for a member of both
      channels, otherwise a prompt with a "verify" button for the user. */
  function Greeting(from: UserId, membership: int -> ChatMemberStatus): seq<Reply>
  {
    if Truthy(AccountValid(membership)) then [MainMenu] else [VerifyPrompt(from)]
  }

  /** The reply to a button that only shows information, if `text` is one. */
  function InfoReply(text: string): Option<Reply>
  {
    if text in AddNumberCaptions then Some(SettingsShown)
    else if text in BalanceCaptions then Some(BalanceShown)
    else if text in ShareCaptions then Some(ShareShown)
    else if text in ProcedureCaptions then Some(ProcedureShown)
    else None
  }

  /** The captions whose branch returns before the status follow-up. */
  predicate Consumed(text: string)
  {
    text == BonusCaption || InfoReply(text).Some? || text in WithdrawalCaptions
  }

  /** The menu captions are told apart by their first character, so each
      text reaches at most one menu branch, and a task caption is never
      consumed by an earlier branch. */
  lemma {:induction false} MenuCaptionsDistinct()
    ensures InfoReply(BonusCaption).None? && BonusCaption !in WithdrawalCaptions && BonusCaption !in TaskCaptions
    ensures forall t :: t in WithdrawalCaptions ==> t != BonusCaption && InfoReply(t).None? && t !in TaskCaptions
    ensures forall t :: t in TaskCaptions ==> !Consumed(t)
  {
    var firsts := [AddNumberCaptions[0][0], AddNumberCaptions[1][0], BalanceCaptions[0][0], BalanceCaptions[1][0],
                   ShareCaptions[0][0], ShareCaptions[1][0], ProcedureCaptions[0][0], ProcedureCaptions[1][0]];
    assert firsts == ['\U{1F4CC}', '\U{1F4CC}', '\U{1F4B0}', '\U{1F4B0}', 'P', 'S', '\U{1F4CB}', '\U{1F4CB}'];
    assert BonusCaption[0] == 'B';
    assert WithdrawalCaptions[0][0] == 'E' && WithdrawalCaptions[1][0] == 'M';
    assert TaskCaptions[0][0] == '\U{1F6A9}' && TaskCaptions[1][0] == '\U{1F6A9}';
  }

  /** A bonus claim: a missing user throws; a due bonus adds the reward and
      restarts the cooldown at `now`; otherwise nothing changes and the
      remaining time is shown. */
  ghost predicate BonusEffect(u0: map<UserId, User>, u1: map<UserId, User>, from: UserId, now: int, replies: seq<Reply>)
  {
    if from !in u0 then u1 == u0 && replies == [Thrown(UnknownUser(from))]
    else
      var u := u0[from];
      if BonusDue(u.lastBonusDate, now) then
        u1 == u0[from := u.(amount := u.amount + BonusReward, lastBonusDate := now)] && replies == [BonusGranted]
      else
        u1 == u0 && replies == [BonusCountdown(Countdown(u.lastBonusDate + BonusCooldownMs - now))]
  }

  /** A withdrawal request: a missing user throws; a balance under the
      minimum is refused first, a missing payout number second, and only
      then does the status become `Withdraw`. */
  ghost predicate WithdrawalRequestEffect(u0: map<UserId, User>, u1: map<UserId, User>, from: UserId, replies: seq<Reply>)
  {
    if from !in u0 then u1 == u0 && replies == [Thrown(UnknownUser(from))]
    else
      var u := u0[from];
      if u.amount < MinimumWithdrawal then u1 == u0 && replies == [BelowWithdrawalThreshold(u.amount)]
      else if !HasAccountNumber(u) then u1 == u0 && replies == [AccountNumberMissing]
      else u1 == u0[from := u.(status := Withdraw)] && replies == [AmountPrompt]
  }

  /** The follow-up on the user's status: while adding a number, the text
      becomes the payout number and the status returns to idle; while
      withdrawing, a text that reads as a non-zero number is judged as an
      amount, and only an approved amount changes the record; otherwise
      nothing happens. */
  ghost predicate StatusEffect(u0: map<UserId, User>, u1: map<UserId, User>, from: UserId, text: string, reaction: nat, replies: seq<Reply>)
  {
    if from !in u0 then u1 == u0 && replies == []
    else
      var u := u0[from];
      if u.status == AddingNum then
        u1 == u0[from := u.(accountNumber := Some(text), status := Idle)] && replies == [AccountNumberSaved]
      else if u.status == Withdraw && AmountEntry(text).Some? then
        var w := AmountEntry(text).value;
        match WithdrawalVerdict(u, w)
        case Overdrawn => u1 == u0 && replies == [InsufficientBalance(u.amount)]
        case UnderMinimum => u1 == u0 && replies == [BelowMinimumAmount]
        case NotEnoughInvites => u1 == u0 && replies == [TooFewInvites(u.userName, u.invitedUsers)]
        case Approved =>
          u1 == u0[from := Withdrawn(u, w)]
          && replies == [WithdrawalApproved, WithdrawalNotice(from, u.userName, w, reaction)]
      else u1 == u0 && replies == []
  }

  /** The replies of the "Task" button: nothing to offer once the user has two
      completion records; otherwise the offered tasks with a "Check" button
      carrying their ids, and a done counter of two minus the number offered. */
  function TaskOffer(tasks: seq<Task>, records: seq<UserTask>, from: UserId): seq<Reply>
  {
    var done := CompletedIds(records, from);
    if |done| >= TasksPerUser then [TasksUnavailable]
    else
      var offered := Offer(tasks, done);
      [TaskIntro, TaskList(CallbackData(Ids(offered)), TasksPerUser - |offered|)]
  }

  /** The offered ids carry no separator when no task id does, and none of
      them is among the ids already done. */
  lemma {:induction false} OfferedIdsFresh(tasks: seq<Task>, done: seq<TaskId>)
    requires forall t :: t in tasks ==> Separator !in t.id
    ensures forall id :: id in Ids(Offer(tasks, done)) ==> Separator !in id && id !in done
  {
    var offered := Offer(tasks, done);
    var ids := Ids(offered);
    forall id | id in ids ensures Separator !in id && id !in done {
      var i :| 0 <= i < |ids| && ids[i] == id;
      assert offered[i] in offered;
    }
  }

  /** The "Check" button of an offer decodes to exactly the offered ids, and
      none of them is a task the user has a completion record for. */
  lemma {:induction false} OfferedButtonRoundTrip(tasks: seq<Task>, records: seq<UserTask>, from: UserId)
    requires forall t :: t in tasks ==> Separator !in t.id
    requires |CompletedIds(records, from)| < TasksPerUser
    ensures var offered := Offer(tasks, CompletedIds(records, from));
      && TaskOffer(tasks, records, from)[1].data == CallbackData(Ids(offered))
      && TaskIds(CallbackData(Ids(offered))) == Ids(offered)
      && (forall id :: id in Ids(offered) ==> UserTask(from, id) !in records)
  {
    var done := CompletedIds(records, from);
    var ids := Ids(Offer(tasks, done));
    TaskOfferButton(tasks, records, from);
    OfferedIdsFresh(tasks, done);
    CallbackRoundTrip(ids);
  }

  /** Below two completion records, the second reply of the "Task" button is
      the list of the offered tasks. */
  lemma {:induction false} TaskOfferButton(tasks: seq<Task>, records: seq<UserTask>, from: UserId)
    requires |CompletedIds(records, from)| < TasksPerUser
    ensures TaskOffer(tasks, records, from)[1].data == CallbackData(Ids(Offer(tasks, CompletedIds(records, from))))
  {
  }

  /** The evaluation of a "Check" press: the presser's balance, when the
      presser has a user row, grows by the rewards of the tasks found done
      (without a row no balance changes), a completion record is added for
      each kind "22" task found done, including one found done by a presser
      without a row just before the credit throws, and the replies are those
      of `Outcome`; ids after the first faulty one are not evaluated. */
  ghost predicate EvaluationEffect(p: Press, ids: seq<TaskId>, u0: map<UserId, User>, u1: map<UserId, User>,
                                   records1: seq<UserTask>, replies: seq<Reply>)
  {
    var evaluated := FirstFault(p, ids);
    && (p.known <==> p.user in u0)
    && (if p.known then Credited(u0, u1, p.user, Earned(p, ids, evaluated)) else u1 == u0)
    && records1 == p.records + Recorded(p, ids, evaluated) + (if evaluated < |ids| then Written(p, ids[evaluated]) else [])
    && replies == Outcome(p, ids)
  }

  /** `u1` is `u0` with `g` added to the balance of `id`, and nothing else
      changed. */
  ghost predicate Credited(u0: map<UserId, User>, u1: map<UserId, User>, id: UserId, g: int)
  {
    id in u0 && u1 == u0[id := u0[id].(amount := u0[id].amount + g)]
  }

  /** Setting the balance of `id` to `amount` credits the difference. */
  lemma {:induction false} CreditedAt(u0: map<UserId, User>, id: UserId, amount: int)
    requires id in u0
    ensures Credited(u0, u0[id := u0[id].(amount := amount)], id, amount - u0[id].amount)
  {
  }

  /** Stopping at `i`, either at the first faulty id or after the last id,
      with the balance and the records built from the ids before it, is the
      effect of the whole press. */
  lemma {:induction false} EffectAt(p: Press, ids: seq<TaskId>, i: nat, u0: map<UserId, User>, u1: map<UserId, User>,
                 records: seq<UserTask>)
    requires i <= |ids|
    requires p.known <==> p.user in u0
    requires if p.known then Credited(u0, u1, p.user, Earned(p, ids, i)) else u1 == u0
    requires forall j :: 0 <= j < i ==> !Faulty(p, ids[j])
    requires i < |ids| ==> Faulty(p, ids[i])
    requires records == p.records + Recorded(p, ids, i) + (if i < |ids| then Written(p, ids[i]) else [])
    ensures FirstFault(p, ids) == i
    ensures EvaluationEffect(p, ids, u0, u1, records, Outcome(p, ids))
  {
    if i < |ids| {
      FaultAt(p, ids, i);
    } else {
      NoFault(p, ids);
    }
  }

  /** Pressing again a button that lists only a kind "11" task already found
      done, by a presser with a user row, raises the balance by that task's
      reward once more and replies "all done". */
  lemma {:induction false} SelfReportedPressCreditsAgain(p: Press, id: TaskId, more: seq<UserTask>, u0: map<UserId, User>,
                                                         u1: map<UserId, User>, records1: seq<UserTask>, replies: seq<Reply>)
    requires p.known && Kind(id) == SelfReported && Done(p, id)
    requires EvaluationEffect(p.(records := p.records + more), [id], u0, u1, records1, replies)
    ensures p.user in u0 && p.user in u1 && u1[p.user].amount == u0[p.user].amount + Reward(p, id)
    ensures replies == [TasksDone]
  {
    SelfReportedCreditedAgain(p, id, more);
  }

  /** An evaluation keeps every balance non-negative when rewards are. */
  lemma {:induction false} EvaluationKeepsSolvent(p: Press, ids: seq<TaskId>, u0: map<UserId, User>, u1: map<UserId, User>,
                               records1: seq<UserTask>, replies: seq<Reply>)
    requires Solvent(u0) && WellFormedTasks(p.tasks)
    requires EvaluationEffect(p, ids, u0, u1, records1, replies)
    ensures Solvent(u1)
  {
    if p.known {
      var evaluated := FirstFault(p, ids);
      assert forall t :: t in p.tasks ==> t.reward >= 0 by {
        forall t | t in p.tasks ensures t.reward >= 0 {
          var i :| 0 <= i < |p.tasks| && p.tasks[i] == t;
        }
      }
      EarnedNonNegative(p, ids, evaluated);
      var u := u0[p.user];
      SolventUpdate(u0, p.user, u.(amount := u.amount + Earned(p, ids, evaluated)));
    }
  }

  /** Whether the presser has done task `id`, decided as the evaluator does:
      a kind "11" task by looking for a completion record among `records`, a
      kind "22" task by the presser's status in its chat, any other kind
      never. The records written so far in the same press are all for kind
      "22" ids, so for a kind "11" id the lookup sees what the press began
      with. */
  method Judge(p: Press, id: TaskId, task: Task, records: seq<UserTask>) returns (done: bool)
    requires FindTask(p.tasks, id) == Some(task)
    requires Kind(id) == MembershipChecked ==> task.chatId.Some?
    requires Kind(id) == SelfReported ==> (UserTask(p.user, id) in records <==> UserTask(p.user, id) in p.records)
    ensures done == Done(p, id)
  {
    match Kind(id)
    case SelfReported => done := UserTask(p.user, id) in records;
    case MembershipChecked => done := StillMember(p.chatStatus(task.chatId.value));
    case Unchecked => done := false;
  }

  /** Appending a record to the records of a press so far. */
  lemma {:induction false} AppendOne(before: seq<UserTask>, added: seq<UserTask>, r: UserTask)
    ensures (before + added) + [r] == before + (added + [r])
  {
  }

  /** Appending no record. */
  lemma {:induction false} AppendNone(before: seq<UserTask>, added: seq<UserTask>)
    ensures before + added == before + (added + [])
  {
    assert added + [] == added;
  }

  /** What the evaluator's loop carries from one id to the next: the user
      table with the presser's balance as credited so far, that balance, the
      completion records, and the ids found done and not done. */
  datatype Progress = Progress(
    credited: map<UserId, User>,
    balance: int,
    records: seq<UserTask>,
    completed: seq<TaskId>,
    uncompleted: seq<TaskId>)

  /** `s` is what evaluating the first `i` ids leaves, none of them faulty.
      Without a user row for the presser no balance is carried. */
  ghost predicate EvaluatedUpTo(p: Press, ids: seq<TaskId>, i: nat, users: map<UserId, User>, s: Progress)
  {
    && i <= |ids|
    && (p.known <==> p.user in users)
    && (forall j :: 0 <= j < i ==> !Faulty(p, ids[j]))
    && s.completed == Completed(p, ids, i)
    && s.uncompleted == Uncompleted(p, ids, i)
    && (p.known ==> s.balance == users[p.user].amount + Earned(p, ids, i))
    && (if p.known then Credited(users, s.credited, p.user, Earned(p, ids, i)) else s.credited == users)
    && s.records == p.records + Recorded(p, ids, i)
  }

  /** One turn of the evaluator's loop, for an id whose task exists and has
      been judged, and that a done task can credit: write a completion record
      for a done kind "22" task, credit the reward of a done task, and file
      the id as done or not done. */
  method Visit(p: Press, ids: seq<TaskId>, i: nat, users: map<UserId, User>, s: Progress, task: Task, done: bool)
    returns (next: Progress)
    requires EvaluatedUpTo(p, ids, i, users, s) && i < |ids|
    requires FindTask(p.tasks, ids[i]) == Some(task)
    requires !(Kind(ids[i]) == MembershipChecked && task.chatId.None?)
    requires done == Done(p, ids[i]) && (done ==> p.known)
    ensures EvaluatedUpTo(p, ids, i + 1, users, next)
  {
    var from, id := p.user, ids[i];
    var records := s.records;
    Advance(p, ids, i, done);
    if Kind(id) == MembershipChecked && done {
      AppendOne(p.records, Recorded(p, ids, i), UserTask(from, id));
      records := records + [UserTask(from, id)];
    } else {
      AppendNone(p.records, Recorded(p, ids, i));
    }
    assert task.id == id;
    if done {
      var balance := s.balance + task.reward;
      CreditedAt(users, from, balance);
      next := Progress(users[from := users[from].(amount := balance)], balance, records, s.completed + [task.id], s.uncompleted);
    } else {
      next := Progress(s.credited, s.balance, records, s.completed, s.uncompleted + [task.id]);
    }
  }

  /** Stopping at the first faulty id `i`, faulty for want of a task or of a
      chat, leaves the effect of the ids before it and replies with the error
      of `ids[i]`. */
  lemma {:induction false} StopAt(p: Press, ids: seq<TaskId>, i: nat, users: map<UserId, User>, s: Progress, fault: Fault)
    requires EvaluatedUpTo(p, ids, i, users, s) && i < |ids| && Faulty(p, ids[i]) && !Done(p, ids[i])
    requires fault == FaultOf(p, ids[i])
    ensures EvaluationEffect(p, ids, users, s.credited, s.records, [Thrown(fault)])
  {
    FaultAt(p, ids, i);
    assert s.records + [] == s.records;
    EffectAt(p, ids, i, users, s.credited, s.records);
  }

  /** Stopping at the first id found done by a presser without a user row
      leaves the effect of the ids before it plus the record written for
      `ids[i]`, and replies with the error of the failed credit. */
  lemma {:induction false} StopUnknown(p: Press, ids: seq<TaskId>, i: nat, users: map<UserId, User>, s: Progress,
                                       written: seq<UserTask>)
    requires EvaluatedUpTo(p, ids, i, users, s) && i < |ids| && !p.known && Done(p, ids[i])
    requires written == if Kind(ids[i]) == MembershipChecked then [UserTask(p.user, ids[i])] else []
    ensures EvaluationEffect(p, ids, users, s.credited, s.records + written, [Thrown(UnknownUser(p.user))])
  {
    assert Faulty(p, ids[i]) && Written(p, ids[i]) == written;
    FaultAt(p, ids, i);
    EffectAt(p, ids, i, users, s.credited, s.records + written);
  }

  /** After the last id, the replies follow from how many ids were found
      done. */
  lemma {:induction false} Finish(p: Press, ids: seq<TaskId>, users: map<UserId, User>, s: Progress, replies: seq<Reply>)
    requires EvaluatedUpTo(p, ids, |ids|, users, s)
    requires replies == if |s.completed| == 0 then [TaskAlert]
                        else if |s.completed| == |ids| then [TasksDone]
                        else [TaskListEdited(CallbackData(s.uncompleted), |s.completed|)]
    ensures EvaluationEffect(p, ids, users, s.credited, s.records, replies)
  {
    assert s.records + [] == s.records;
    EffectAt(p, ids, |ids|, users, s.credited, s.records);
  }

  /** The evaluator's loop over the ids of a press, on the user table and
      the completion records as the press found them: for each id in turn it
      stops with an error at a missing task or a kind "22" task without a
      chat, otherwise judges the id, and stops with an error when a done id
      finds no user row to credit, otherwise evaluates the id. It returns the
      two tables as they stand when it stops, and the replies. */
  method RunPress(p: Press, ids: seq<TaskId>, users: map<UserId, User>)
    returns (credited: map<UserId, User>, records: seq<UserTask>, replies: seq<Reply>)
    requires p.known <==> p.user in users
    ensures EvaluationEffect(p, ids, users, credited, records, replies)
  {
    var s := Progress(users, if p.known then users[p.user].amount else 0, p.records, [], []);
    if p.known {
      CreditedAt(users, p.user, users[p.user].amount);
    }
    var i := 0;
    while i < |ids|
      invariant EvaluatedUpTo(p, ids, i, users, s)
    {
      var id := ids[i];
      var task := FindTask(p.tasks, id);
      // Without a task row every branch reads a property of nothing, and a
      // kind "22" task without a chat fails the membership lookup; both
      // happen before anything is written for this id.
      if task.None? {
        StopAt(p, ids, i, users, s, UnknownTask(id));
        return s.credited, s.records, [Thrown(UnknownTask(id))];
      }
      if Kind(id) == MembershipChecked && task.value.chatId.None? {
        StopAt(p, ids, i, users, s, TaskWithoutChat(id));
        return s.credited, s.records, [Thrown(TaskWithoutChat(id))];
      }
      RecordedAreMembershipChecked(p, ids, i);
      var done := Judge(p, id, task.value, s.records);
      if done && !p.known {
        // The record of a kind "22" task is written before the credit,
        // which finds no user row and throws.
        var written := if Kind(id) == MembershipChecked then [UserTask(p.user, id)] else [];
        StopUnknown(p, ids, i, users, s, written);
        return s.credited, s.records + written, [Thrown(UnknownUser(p.user))];
      }
      s := Visit(p, ids, i, users, s, task.value, done);
      i := i + 1;
    }
    credited, records := s.credited, s.records;
    if |s.completed| == 0 {
      replies := [TaskAlert];
    } else if |s.completed| == |ids| {
      replies := [TasksDone];
    } else {
      replies := [TaskListEdited(CallbackData(s.uncompleted), |s.completed|)];
    }
    Finish(p, ids, users, s, replies);
  }

  // ------------------------------------------------------------- the store

  class Store {
    /** The user table, by user id. */
    var users: map<UserId, User>
    /** The table of tasks, in storage order; the handlers never write it. */
    var tasks: seq<Task>
    /** The completion records, in creation order. */
    var userTasks: seq<UserTask>

    ghost predicate Valid()
      reads this
    {
      Solvent(users) && WellFormedTasks(tasks)
    }

    constructor (tasks: seq<Task>)
      requires WellFormedTasks(tasks)
      ensures Valid()
      ensures users == map[] && this.tasks == tasks && userTasks == []
    {
      users := map[];
      this.tasks := tasks;
      userTasks := [];
    }

    /** The start command, with `payload` the text after "/start" ("" when
        absent). A new user invited through a payload credits the inviter,
        whose id is the payload without its first four characters, with one
        referral and the referral reward; then the user's row is created. A
        known user changes nothing. */
    method Start(from: UserId, firstName: string, payload: string, membership: int -> ChatMemberStatus)
      returns (replies: seq<Reply>)
      requires Valid()
      modifies this`users
      ensures Valid()
      ensures from in old(users) ==> users == old(users) && replies == Greeting(from, membership)
      ensures from !in old(users) && payload == "" ==>
        users == old(users)[from := NewUser(firstName)] && replies == Greeting(from, membership)
      ensures from !in old(users) && payload != "" ==>
        var inviterId := SliceFrom(payload, PayloadPrefixLength);
        if inviterId !in old(users) then
          users == old(users) && replies == [Thrown(UnknownInviter(inviterId))]
        else
          var inviter := old(users)[inviterId];
          && inviterId != from
          && users == old(users)[inviterId := inviter.(invitedUsers := inviter.invitedUsers + 1,
                                                       amount := inviter.amount + ReferralReward)]
                                [from := NewUser(firstName)]
          && users.Keys == old(users).Keys + {from}
          && replies == [InvitedBy(inviter.userName)] + Greeting(from, membership)
    {
      replies := [];
      if from !in users {
        if payload != "" {
          var inviterId := SliceFrom(payload, PayloadPrefixLength);
          if inviterId !in users {
            replies := [Thrown(UnknownInviter(inviterId))];
            return;
          }
          var inviter := users[inviterId];
          users := users[inviterId := inviter.(invitedUsers := inviter.invitedUsers + 1,
                                               amount := inviter.amount + ReferralReward)];
          replies := replies + [InvitedBy(inviter.userName)];
        }
        users := users[from := NewUser(firstName)];
      }
      var valid := AccountValid(membership);
      if !Truthy(valid) {
        replies := replies + [VerifyPrompt(from)];
        return;
      }
      replies := replies + [MainMenu];
    }

    /** The bonus button. */
    method ClaimBonus(from: UserId, now: int) returns (replies: seq<Reply>)
      requires Valid()
      modifies this`users
      ensures Valid()
      ensures BonusEffect(old(users), users, from, now, replies)
    {
      if from !in users {
        return [Thrown(UnknownUser(from))];
      }
      var user := users[from];
      if BonusDue(user.lastBonusDate, now) {
        users := users[from := user.(amount := user.amount + BonusReward, lastBonusDate := now)];
        replies := [BonusGranted];
      } else {
        var remaining := user.lastBonusDate + BonusCooldownMs - now;
        replies := [BonusCountdown(Countdown(remaining))];
      }
    }

    /** The withdrawal button. */
    method RequestWithdrawal(from: UserId) returns (replies: seq<Reply>)
      requires Valid()
      modifies this`users
      ensures Valid()
      ensures WithdrawalRequestEffect(old(users), users, from, replies)
    {
      if from !in users {
        return [Thrown(UnknownUser(from))];
      }
      var user := users[from];
      if user.amount < MinimumWithdrawal {
        return [BelowWithdrawalThreshold(user.amount)];
      }
      if !HasAccountNumber(user) {
        return [AccountNumberMissing];
      }
      users := users[from := user.(status := Withdraw)];
      replies := [AmountPrompt];
    }

    /** The status follow-up on a text no earlier branch returned from;
        `reaction` is the index the random draw picks for the notice. */
    method FollowStatus(from: UserId, text: string, reaction: nat) returns (replies: seq<Reply>)
      requires Valid()
      requires reaction < ReactionCount
      modifies this`users
      ensures Valid()
      ensures StatusEffect(old(users), users, from, text, reaction, replies)
    {
      if from !in users {
        return [];
      }
      var user := users[from];
      if user.status == AddingNum {
        SolventUpdate(users, from, user.(accountNumber := Some(text), status := Idle));
        users := users[from := user.(accountNumber := Some(text), status := Idle)];
        return [AccountNumberSaved];
      }
      var entry := AmountEntry(text);
      if user.status == Withdraw && entry.Some? {
        var withdrawAmount := entry.value;
        if withdrawAmount > user.amount {
          return [InsufficientBalance(user.amount)];
        }
        if withdrawAmount < MinimumWithdrawal {
          return [BelowMinimumAmount];
        }
        if user.invitedUsers < MinimumInvites {
          return [TooFewInvites(user.userName, user.invitedUsers)];
        }
        assert WithdrawalVerdict(user, withdrawAmount) == Approved;
        SolventUpdate(users, from, Withdrawn(user, withdrawAmount));
        users := users[from := Withdrawn(user, withdrawAmount)];
        return [WithdrawalApproved, WithdrawalNotice(from, user.userName, withdrawAmount, reaction)];
      }
      replies := [];
    }

    /** A text message. The bonus, information and withdrawal buttons return
        after their branch, and so does the "Task" button when the presser has
        used up the tasks; otherwise the "Task" button does not return, so its
        text goes on to the status follow-up like any other text. */
    method OnText(from: UserId, text: string, now: int, reaction: nat) returns (replies: seq<Reply>)
      requires Valid()
      requires reaction < ReactionCount
      modifies this`users
      ensures Valid()
      ensures text == BonusCaption ==> BonusEffect(old(users), users, from, now, replies)
      ensures text != BonusCaption && InfoReply(text).Some? ==>
        users == old(users) && replies == [InfoReply(text).value]
      ensures text in WithdrawalCaptions ==> WithdrawalRequestEffect(old(users), users, from, replies)
      ensures text in TaskCaptions && |CompletedIds(userTasks, from)| >= TasksPerUser ==>
        users == old(users) && replies == [TasksUnavailable]
      ensures text in TaskCaptions && |CompletedIds(userTasks, from)| < TasksPerUser ==>
        var offer := TaskOffer(tasks, userTasks, from);
        |replies| >= |offer| && replies[..|offer|] == offer
        && StatusEffect(old(users), users, from, text, reaction, replies[|offer|..])
      ensures !Consumed(text) && text !in TaskCaptions ==>
        StatusEffect(old(users), users, from, text, reaction, replies)
    {
      MenuCaptionsDistinct();
      if text == BonusCaption {
        replies := ClaimBonus(from, now);
        return;
      }
      var info := InfoReply(text);
      if info.Some? {
        return [info.value];
      }
      if text in WithdrawalCaptions {
        replies := RequestWithdrawal(from);
        return;
      }
      var offer := [];
      if text in TaskCaptions {
        offer := TaskOffer(tasks, userTasks, from);
        if |CompletedIds(userTasks, from)| >= TasksPerUser {
          return offer;
        }
      }
      var followUp := FollowStatus(from, text, reaction);
      assert StatusEffect(old(users), users, from, text, reaction, followUp);
      replies := offer + followUp;
      assert replies[..|offer|] == offer && replies[|offer|..] == followUp;
    }

    /** A request to join `chat`, made by `requester`; the record is written
        under `fromId`, the sender the framework reports for the update. */
    method OnChatJoinRequest(requester: UserId, fromId: UserId, chat: string) returns (replies: seq<Reply>)
      requires Valid()
      modifies this`userTasks
      ensures Valid()
      ensures requester !in users ==> userTasks == old(userTasks) && replies == []
      ensures requester in users ==>
        var i := FirstTaskForChat(tasks, chat);
        if i == |tasks| then userTasks == old(userTasks) && replies == [Thrown(NoTaskForChat(chat))]
        else userTasks == old(userTasks) + [UserTask(fromId, tasks[i].id)] && replies == []
    {
      if requester !in users {
        return [];
      }
      var i := FirstTaskForChat(tasks, chat);
      if i == |tasks| {
        return [Thrown(NoTaskForChat(chat))];
      }
      userTasks := userTasks + [UserTask(fromId, tasks[i].id)];
      replies := [];
    }

    /** The evaluator of task completions over the ids of a "Check" button;
        `chatStatus` gives the presser's membership status in each chat. */
    method EvaluateTasks(from: UserId, ids: seq<TaskId>, chatStatus: string -> ChatMemberStatus)
      returns (replies: seq<Reply>)
      modifies this`users, this`userTasks
      ensures EvaluationEffect(Press(from, from in old(users), tasks, old(userTasks), chatStatus), ids, old(users), users,
                               userTasks, replies)
    {
      var credited, records;
      credited, records, replies := RunPress(Press(from, from in users, tasks, userTasks, chatStatus), ids, users);
      users, userTasks := credited, records;
    }

    /** The "add a number" button: prompt, then set the status; a missing
        user makes the update throw after the prompt. */
    method AskAccountNumber(from: UserId) returns (replies: seq<Reply>)
      requires Valid()
      modifies this`users
      ensures Valid()
      ensures from in old(users) ==>
        users == old(users)[from := old(users)[from].(status := AddingNum)] && replies == [NumberRequested]
      ensures from !in old(users) ==> users == old(users) && replies == [NumberRequested, Thrown(UnknownUser(from))]
    {
      replies := [NumberRequested];
      if from !in users {
        replies := replies + [Thrown(UnknownUser(from))];
        return;
      }
      users := users[from := users[from].(status := AddingNum)];
    }

    /** A callback query, dispatched on the first "_"-separated piece of its
        data. */
    method OnCallbackQuery(from: UserId, data: string, membership: int -> ChatMemberStatus,
                           chatStatus: string -> ChatMemberStatus)
      returns (replies: seq<Reply>)
      requires Valid()
      modifies this`users, this`userTasks
      ensures Valid()
      ensures Command(data) == VerifyCommand ==>
        users == old(users) && userTasks == old(userTasks)
        && replies == (if Truthy(AccountValid(membership)) then [Welcome] else [InvalidAccount])
      ensures Command(data) == AddNumberCommand ==>
        userTasks == old(userTasks)
        && (from in old(users) ==>
              users == old(users)[from := old(users)[from].(status := AddingNum)] && replies == [NumberRequested])
        && (from !in old(users) ==> users == old(users) && replies == [NumberRequested, Thrown(UnknownUser(from))])
      ensures Command(data) == TaskCommand ==>
        EvaluationEffect(Press(from, from in old(users), tasks, old(userTasks), chatStatus), TaskIds(data), old(users), users,
                         userTasks, replies)
      ensures Command(data) !in {VerifyCommand, AddNumberCommand, TaskCommand} ==>
        users == old(users) && userTasks == old(userTasks) && replies == []
    {
      var command := Command(data);
      replies := [];
      if command == VerifyCommand {
        var valid := AccountValid(membership);
        if !Truthy(valid) {
          return [InvalidAccount];
        }
        replies := [Welcome];
      }
      if command == AddNumberCommand {
        replies := AskAccountNumber(from);
      }
      if command == TaskCommand {
        ghost var users0 := users;
        ghost var records0 := userTasks;
        replies := EvaluateTasks(from, TaskIds(data), chatStatus);
        EvaluationKeepsSolvent(Press(from, from in users0, tasks, records0, chatStatus), TaskIds(data), users0, users,
                               userTasks, replies);
      }
    }
  }
}
