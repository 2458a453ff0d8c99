/** The queries the handlers run against the tables of tasks and completions:
    look a task up by id, find the first task bound to a chat, list a user's
    completed task ids, and pick the tasks to offer (those not completed,
    highest priority first, at most two). Tables are sequences in storage
    order. */
module TaskQueries {
  import opened Wrappers
  import opened Entities

  /** `task.findUnique({ where: { id } })`. */
  function FindTask(tasks: seq<Task>, id: TaskId): (r: Option<Task>)
    ensures r.Some? ==> r.value in tasks && r.value.id == id
    ensures r.None? ==> forall t :: t in tasks ==> t.id != id
    decreases |tasks|
  {
    if tasks == [] then None
    else if tasks[0].id == id then Some(tasks[0])
    else FindTask(tasks[1..], id)
  }

  /** `task.findFirst({ where: { chatId } })`: the position of the first task
      bound to `chat`, or `|tasks|` when there is none. */
  function FirstTaskForChat(tasks: seq<Task>, chat: string): (i: nat)
    ensures i <= |tasks|
    ensures i < |tasks| ==> tasks[i].chatId == Some(chat)
    ensures forall j :: 0 <= j < i ==> tasks[j].chatId != Some(chat)
    decreases |tasks|
  {
    if tasks == [] then 0
    else if tasks[0].chatId == Some(chat) then 0
    else 1 + FirstTaskForChat(tasks[1..], chat)
  }

  /** `userTasks.findMany({ where: { userId } })` mapped to task ids, one entry
      per completion record (a repeated record gives a repeated id). */
  function CompletedIds(records: seq<UserTask>, user: UserId): (ids: seq<TaskId>)
    ensures forall id :: id in ids <==> UserTask(user, id) in records
    ensures forall id :: multiset(ids)[id] == multiset(records)[UserTask(user, id)]
    ensures |ids| <= |records|
    decreases |records|
  {
    if records == [] then []
    else
      var rest := CompletedIds(records[..|records| - 1], user);
      var last := records[|records| - 1];
      var ids := if last.userId == user then rest + [last.taskId] else rest;
      CompletedIdsStep(records, user, rest, ids);
      ids
  }

  /** One more record adds its id to the user's completed ids exactly when
      it is the user's. */
  lemma {:induction false} CompletedIdsStep(records: seq<UserTask>, user: UserId, rest: seq<TaskId>, ids: seq<TaskId>)
    requires records != []
    requires forall id :: multiset(rest)[id] == multiset(records[..|records| - 1])[UserTask(user, id)]
    requires |rest| <= |records| - 1
    requires ids == if records[|records| - 1].userId == user then rest + [records[|records| - 1].taskId] else rest
    ensures forall id :: id in ids <==> UserTask(user, id) in records
    ensures forall id :: multiset(ids)[id] == multiset(records)[UserTask(user, id)]
    ensures |ids| <= |records|
  {
    var init, last := records[..|records| - 1], records[|records| - 1];
    assert records == init + [last];
    assert multiset(records) == multiset(init) + multiset{last};
    assert multiset(ids) == multiset(rest) + (if last.userId == user then multiset{last.taskId} else multiset{});
    forall id
      ensures multiset(ids)[id] == multiset(records)[UserTask(user, id)]
    {
      assert UserTask(user, id) == last <==> last.userId == user && last.taskId == id;
    }
  }

  /** The tasks whose id is not among `done`, in storage order. */
  function Eligible(tasks: seq<Task>, done: seq<TaskId>): (r: seq<Task>)
    ensures forall t :: t in r <==> t in tasks && t.id !in done
    ensures multiset(r) <= multiset(tasks)
    decreases |tasks|
  {
    if tasks == [] then []
    else
      var init := tasks[..|tasks| - 1];
      var last := tasks[|tasks| - 1];
      assert tasks == init + [last];
      if last.id in done then Eligible(init, done) else Eligible(init, done) + [last]
  }

  /** Adds one candidate to a best-first list of at most two tasks; on equal
      priority the earlier candidate stays ahead. */
  function Insert(best: seq<Task>, t: Task): (r: seq<Task>)
    requires |best| <= 2
    requires |best| == 2 ==> best[0].priority >= best[1].priority
    ensures |r| == if |best| < 2 then |best| + 1 else 2
    ensures multiset(r) <= multiset(best) + multiset{t}
    ensures |r| == 2 ==> r[0].priority >= r[1].priority
  {
    if |best| == 0 then [t]
    else if t.priority > best[0].priority then [t, best[0]]
    else if |best| == 1 then [best[0], t]
    else if t.priority > best[1].priority then [best[0], t]
    else best
  }

  /** What inserting keeps: nothing is evicted from a list of fewer than two,
      an evicted task ranks no higher than any kept one, the lowest priority
      kept never drops, and a candidate is only turned away by a full list
      whose last task it does not beat. */
  lemma {:induction false} InsertKeepsBest(best: seq<Task>, t: Task)
    requires |best| <= 2
    requires |best| == 2 ==> best[0].priority >= best[1].priority
    ensures var r := Insert(best, t);
      && (|best| < 2 ==> forall x :: x in best ==> x in r)
      && (|best| == 2 ==> forall o :: o in r ==> o.priority >= best[1].priority)
      && (forall x, o :: x in best && x !in r && o in r ==> x.priority <= o.priority)
      && (t !in r ==> |best| == 2 && t.priority <= best[1].priority)
  {
  }

  /** `r` is what taking the two highest-priority tasks of `ts` gives: as
      many tasks as there are, up to two, drawn from `ts`, highest priority
      first, and no task left out has a higher priority than one taken. */
  ghost predicate TopTwoOf(ts: seq<Task>, r: seq<Task>)
  {
    && |r| == (if |ts| < 2 then |ts| else 2)
    && (|ts| < 2 ==> r == ts)
    && multiset(r) <= multiset(ts)
    && (|r| == 2 ==> r[0].priority >= r[1].priority)
    && (forall t, o :: t in ts && t !in r && o in r ==> t.priority <= o.priority)
  }

  /** `orderBy: { priority: "desc" }, take: 2` over `ts`, one candidate at a
      time in storage order. */
  function TopTwo(ts: seq<Task>): (r: seq<Task>)
    ensures TopTwoOf(ts, r)
    decreases |ts|
  {
    if ts == [] then []
    else
      var best := TopTwo(ts[..|ts| - 1]);
      TopTwoStep(ts, best);
      Insert(best, ts[|ts| - 1])
  }

  /** Inserting the last candidate into the best two of the others gives the
      best two of the whole list. */
  lemma {:induction false} TopTwoStep(ts: seq<Task>, best: seq<Task>)
    requires ts != [] && TopTwoOf(ts[..|ts| - 1], best)
    ensures TopTwoOf(ts, Insert(best, ts[|ts| - 1]))
  {
    TopTwoStepDrawn(ts, best);
    TopTwoStepRank(ts, best);
  }

  /** The size and provenance part of `TopTwoStep`. */
  lemma {:induction false} TopTwoStepDrawn(ts: seq<Task>, best: seq<Task>)
    requires ts != [] && TopTwoOf(ts[..|ts| - 1], best)
    ensures var r := Insert(best, ts[|ts| - 1]);
      && |r| == (if |ts| < 2 then |ts| else 2)
      && (|ts| < 2 ==> r == ts)
      && multiset(r) <= multiset(ts)
  {
    var init := ts[..|ts| - 1];
    var last := ts[|ts| - 1];
    assert ts == init + [last];
    assert multiset(ts) == multiset(init) + multiset{last};
    if |ts| < 2 {
      assert init == [] && best == [];
    }
  }

  /** The ranking part of `TopTwoStep`: no candidate left out outranks one
      kept. */
  lemma {:induction false} TopTwoStepRank(ts: seq<Task>, best: seq<Task>)
    requires ts != [] && TopTwoOf(ts[..|ts| - 1], best)
    ensures var r := Insert(best, ts[|ts| - 1]);
      forall t, o :: t in ts && t !in r && o in r ==> t.priority <= o.priority
  {
    forall t, o | t in ts && t !in Insert(best, ts[|ts| - 1]) && o in Insert(best, ts[|ts| - 1])
      ensures t.priority <= o.priority
    {
      InsertRanks(ts, best, t, o);
    }
  }

  /** One pair of the ranking: a candidate `t` turned away or evicted by
      inserting the last candidate ranks no higher than any `o` kept. */
  lemma {:induction false} InsertRanks(ts: seq<Task>, best: seq<Task>, t: Task, o: Task)
    requires ts != [] && TopTwoOf(ts[..|ts| - 1], best)
    requires t in ts && t !in Insert(best, ts[|ts| - 1]) && o in Insert(best, ts[|ts| - 1])
    ensures t.priority <= o.priority
  {
    InInitOrLast(ts, t);
    RankAfterInsert(ts[..|ts| - 1], ts[|ts| - 1], best, t, o);
  }

  /** An element of a non-empty list is among all but the last, or is the
      last. */
  lemma {:induction false} InInitOrLast<T>(s: seq<T>, x: T)
    requires x in s
    ensures x in s[..|s| - 1] || x == s[|s| - 1]
  {
    var i :| 0 <= i < |s| && s[i] == x;
    if i < |s| - 1 {
      assert s[..|s| - 1][i] == x;
    }
  }

  /** The case analysis behind `InsertRanks`, on the facts it needs alone. */
  lemma {:induction false} RankAfterInsert(init: seq<Task>, last: Task, best: seq<Task>, t: Task, o: Task)
    requires |best| == (if |init| < 2 then |init| else 2)
    requires |init| < 2 ==> best == init
    requires |best| == 2 ==> best[0].priority >= best[1].priority
    requires forall x, y :: x in init && x !in best && y in best ==> x.priority <= y.priority
    requires t in init || t == last
    requires t !in Insert(best, last) && o in Insert(best, last)
    ensures t.priority <= o.priority
  {
    InsertKeepsBest(best, last);
    if t == last {
      assert |best| == 2 && t.priority <= best[1].priority;
    } else if t !in best {
      assert best[1] in best;
      assert t.priority <= best[1].priority;
    }
  }

  /** The tasks offered to a user who has completed the tasks in `done`. */
  function Offer(tasks: seq<Task>, done: seq<TaskId>): (r: seq<Task>)
    ensures |r| <= TasksPerUser
    ensures |r| == if |Eligible(tasks, done)| < 2 then |Eligible(tasks, done)| else 2
    ensures multiset(r) <= multiset(Eligible(tasks, done))
    ensures forall t :: t in r ==> t in tasks && t.id !in done
    ensures |r| == 2 ==> r[0].priority >= r[1].priority
    ensures forall t, o :: t in tasks && t.id !in done && t !in r && o in r ==> t.priority <= o.priority
  {
    var eligible := Eligible(tasks, done);
    var r := TopTwo(eligible);
    assert forall t :: t in r ==> t in eligible by {
      forall t | t in r ensures t in eligible {
        assert multiset(r)[t] > 0;
      }
    }
    r
  }

  /** With unique ids, a table holds each task at most once. */
  lemma {:induction false} UniqueIdsOnce(tasks: seq<Task>, t: Task)
    requires forall i, j :: 0 <= i < j < |tasks| ==> tasks[i].id != tasks[j].id
    ensures multiset(tasks)[t] <= 1
    decreases |tasks|
  {
    if tasks != [] {
      var init, last := tasks[..|tasks| - 1], tasks[|tasks| - 1];
      assert tasks == init + [last];
      UniqueIdsOnce(init, t);
      forall k | 0 <= k < |init|
        ensures init[k] != last
      {
        assert init[k] == tasks[k];
      }
    }
  }

  /** Two tasks drawn without repetition from a table with unique ids have
      different ids. */
  lemma {:induction false} DrawnPairDistinct(r: seq<Task>, tasks: seq<Task>)
    requires forall i, j :: 0 <= i < j < |tasks| ==> tasks[i].id != tasks[j].id
    requires |r| == 2 && multiset(r) <= multiset(tasks)
    ensures r[0].id != r[1].id
  {
    var a, b := r[0], r[1];
    assert r == [a] + [b];
    UniqueIdsOnce(tasks, a);
    assert a != b;
    assert a in multiset(tasks) && b in multiset(tasks);
    var i :| 0 <= i < |tasks| && tasks[i] == a;
    var j :| 0 <= j < |tasks| && tasks[j] == b;
    assert i < j || j < i;
  }

  /** With unique task ids, the two tasks of an offer are different rows
      with different ids. */
  lemma {:induction false} OfferDistinct(tasks: seq<Task>, done: seq<TaskId>)
    requires WellFormedTasks(tasks)
    ensures var r := Offer(tasks, done); |r| == 2 ==> r[0].id != r[1].id
  {
    var r := Offer(tasks, done);
    if |r| == 2 {
      assert multiset(r) <= multiset(tasks);
      DrawnPairDistinct(r, tasks);
    }
  }

  /** The ids of a list of tasks, in order. */
  function Ids(ts: seq<Task>): (ids: seq<TaskId>)
    ensures |ids| == |ts| && forall i :: 0 <= i < |ts| ==> ids[i] == ts[i].id
  {
    seq(|ts|, i requires 0 <= i < |ts| => ts[i].id)
  }
}
