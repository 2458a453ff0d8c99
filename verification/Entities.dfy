/** The records the bot keeps, the replies it sends (as abstract tags, not
    message text) and the constants its rules use. */
module Entities {
  import opened Wrappers

  type UserId = string
  type TaskId = string

  /** The per-user conversation cursor. */
  datatype Status = Idle | AddingNum | Withdraw

  /** A user row: balance, referral count, payout number, cursor, time of
      the last bonus (milliseconds since the epoch) and whether a withdrawal
      was ever approved. */
  datatype User = User(
    userName: string,
    amount: int,
    invitedUsers: int,
    accountNumber: Option<string>,
    status: Status,
    lastBonusDate: int,
    hasWithdrawn: bool)

  /** A task row; `chatId` is present for tasks that ask to join a chat. */
  datatype Task = Task(id: TaskId, link: string, reward: int, priority: int, chatId: Option<string>)

  /** A completion record: `userId` has completed `taskId`. */
  datatype UserTask = UserTask(userId: UserId, taskId: TaskId)

  /** Remaining time until the next bonus, as shown to the user. */
  datatype Clock = Clock(hours: int, minutes: int, seconds: int)

  /** Why a handler stopped with an uncaught error. */
  datatype Fault =
    | UnknownInviter(inviterId: UserId)   // the referral update found no row
    | UnknownUser(userId: UserId)         // a property was read from a missing row, or the update found none
    | NoTaskForChat(chatId: string)       // a join request for a chat no task names
    | UnknownTask(taskId: TaskId)         // a callback names a task with no row
    | TaskWithoutChat(taskId: TaskId)     // a membership-checked task has no chat to check

  /** What a handler sends, in order. */
  datatype Reply =
    | InvitedBy(inviterName: string)
    | VerifyPrompt(userId: UserId)
    | MainMenu
    | BonusGranted
    | BonusCountdown(remaining: Clock)
    | SettingsShown
    | BalanceShown
    | ShareShown
    | ProcedureShown
    | BelowWithdrawalThreshold(balance: int)
    | AccountNumberMissing
    | AmountPrompt
    | TasksUnavailable
    | TaskIntro
    | TaskList(data: string, doneShown: int)
    | AccountNumberSaved
    | InsufficientBalance(balance: int)
    | BelowMinimumAmount
    | TooFewInvites(userName: string, invitedUsers: int)
    | WithdrawalApproved
    | WithdrawalNotice(userId: UserId, userName: string, withdrawn: int, reaction: nat)
    | InvalidAccount
    | Welcome
    | NumberRequested
    | TaskAlert
    | TasksDone
    | TaskListEdited(data: string, doneShown: int)
    | Thrown(fault: Fault)

  /** Characters dropped from the start payload to get the inviter's id. */
  const PayloadPrefixLength: nat := 4
  /** Credited to the inviter for each new user. */
  const ReferralReward: int := 5500
  /** Credited by a bonus claim. */
  const BonusReward: int := 750
  /** Time between two bonus claims, in milliseconds (two hours). */
  const BonusCooldownMs: int := 3600000 * 2
  /** `new Date(2000, 11, 1)`: 1 December 2000, 00:00 UTC, in milliseconds. */
  const SentinelBonusDate: int := 975628800000
  /** Smallest balance to start a withdrawal, and smallest amount to withdraw. */
  const MinimumWithdrawal: int := 40000
  /** Referrals needed before a withdrawal is approved. */
  const MinimumInvites: int := 5
  /** Completion records after which no task is offered, and tasks per offer. */
  const TasksPerUser: nat := 2
  /** Number of reactions the withdrawal notice picks from. */
  const ReactionCount: nat := 4

  /** The row created on a user's first start: zero balance and referrals,
      no payout number, idle, and a bonus date far in the past. */
  function NewUser(userName: string): User
  {
    User(userName, 0, 0, None, Idle, SentinelBonusDate, false)
  }

  /** Every balance and referral count is non-negative. */
  ghost predicate Solvent(users: map<UserId, User>)
  {
    forall id :: id in users ==> users[id].amount >= 0 && users[id].invitedUsers >= 0
  }

  /** Replacing one row by a row with a non-negative balance and referral
      count keeps the table solvent. */
  lemma {:induction false} SolventUpdate(users: map<UserId, User>, id: UserId, u: User)
    requires Solvent(users) && u.amount >= 0 && u.invitedUsers >= 0
    ensures Solvent(users[id := u])
  {
  }

  /** Task ids are unique (the primary key) and rewards are non-negative. */
  ghost predicate WellFormedTasks(tasks: seq<Task>)
  {
    (forall i :: 0 <= i < |tasks| ==> tasks[i].reward >= 0)
    && (forall i, j :: 0 <= i < j < |tasks| ==> tasks[i].id != tasks[j].id)
  }
}
