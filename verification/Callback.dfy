/** The callback data carried by the bot's inline buttons. A task button
    holds "task" followed by "_<id>" for each task it lists; the callback
    handler splits on "_", reads the command from the first piece and the
    task ids from the rest. A task's kind is coded in characters 2 and 3 of
    its id. */
module Callback {
  import opened JsText

  /** "11": completion recorded by a join request and looked up;
      "22": completion checked live against channel membership;
      anything else is never completed by the evaluator. */
  datatype TaskKind = SelfReported | MembershipChecked | Unchecked

  /** The kind of a task id, from its characters 2 and 3. */
  function Kind(id: string): TaskKind
  {
    if |id| >= 4 && id[2] == '1' && id[3] == '1' then SelfReported
    else if |id| >= 4 && id[2] == '2' && id[3] == '2' then MembershipChecked
    else Unchecked
  }

  /** The kind is what `id.slice(2, 4)` compares equal to: "11" and "22"
      are the two checked kinds, and an id of fewer than four characters has
      a shorter slice and so is never checked. */
  lemma {:induction false} KindReadsSlice(id: string)
    ensures Kind(id) == SelfReported <==> Slice(id, 2, 4) == "11"
    ensures Kind(id) == MembershipChecked <==> Slice(id, 2, 4) == "22"
    ensures Kind(id) == Unchecked <==> Slice(id, 2, 4) != "11" && Slice(id, 2, 4) != "22"
  {
    var code := Slice(id, 2, 4);
    if |id| >= 4 {
      assert |code| == 2 && code[0] == id[2] && code[1] == id[3];
    } else {
      assert |code| < 2;
    }
  }

  const TaskCommand: string := "task"
  const VerifyCommand: string := "verify"
  const AddNumberCommand: string := "addNum"

  /** The data of a "Check" button: the reduce that starts from "task" and
      appends "_" and each id in turn. */
  function CallbackData(ids: seq<string>): (data: string)
    ensures |data| >= |TaskCommand| && data[..|TaskCommand|] == TaskCommand
    decreases |ids|
  {
    if ids == [] then TaskCommand
    else CallbackData(ids[..|ids| - 1]) + [Separator] + ids[|ids| - 1]
  }

  /** `data.split("_")[0]`: the sub-command of a callback. */
  function Command(data: string): string
  {
    Split(data)[0]
  }

  /** `data.split("_").slice(1)`: the ids listed by a "task" callback. */
  function TaskIds(data: string): (ids: seq<string>)
    ensures forall id :: id in ids ==> Separator !in id
  {
    Split(data)[1..]
  }

  /** Encoding then splitting gives back "task" followed by exactly the
      encoded ids, whenever no id contains the separator. */
  lemma {:induction false} SplitCallbackData(ids: seq<string>)
    requires forall id :: id in ids ==> Separator !in id
    ensures Split(CallbackData(ids)) == [TaskCommand] + ids
    decreases |ids|
  {
    if ids == [] {
      SplitWhole(TaskCommand);
    } else {
      var init := ids[..|ids| - 1];
      var last := ids[|ids| - 1];
      var d := CallbackData(init);
      assert CallbackData(ids) == d + [Separator] + last;
      SplitCallbackData(init);
      SplitAppend(d, last);
      PartsSnoc(TaskCommand, ids);
    }
  }

  /** A list of parts after a head is the parts but the last, then the last. */
  lemma {:induction false} PartsSnoc(head: string, parts: seq<string>)
    requires parts != []
    ensures ([head] + parts[..|parts| - 1]) + [parts[|parts| - 1]] == [head] + parts
  {
    var l := ([head] + parts[..|parts| - 1]) + [parts[|parts| - 1]];
    var r := [head] + parts;
    assert |l| == |r|;
    forall k | 0 <= k < |l| ensures l[k] == r[k] {
      if k > 0 {
        assert r[k] == parts[k - 1];
      }
    }
  }

  /** The sub-command of an encoded "Check" button is "task" and its ids are
      exactly the encoded ones, whenever no id contains the separator. */
  lemma {:induction false} CallbackRoundTrip(ids: seq<string>)
    requires forall id :: id in ids ==> Separator !in id
    ensures Command(CallbackData(ids)) == TaskCommand
    ensures TaskIds(CallbackData(ids)) == ids
  {
    SplitCallbackData(ids);
    assert ([TaskCommand] + ids)[1..] == ids;
  }

  /** Any selection of the ids decoded from a callback re-encodes into a
      callback that decodes to exactly that selection: decoded ids never
      contain the separator. */
  lemma {:induction false} ReencodeDecoded(data: string, ids: seq<string>)
    requires forall id :: id in ids ==> id in TaskIds(data)
    ensures Command(CallbackData(ids)) == TaskCommand
    ensures TaskIds(CallbackData(ids)) == ids
  {
    CallbackRoundTrip(ids);
  }
}
