/** The membership gate of the bot: a user is accepted when, in each of two
    fixed channels, their chat-member status is neither "left" nor "kicked".
    The source folds the channel list with `reduce`, starting from the boolean
    `true` and combining each step by multiplication, so the result is a
    JavaScript number (0 or 1) rather than a boolean. */
module Membership {

  /** The statuses Telegram reports for a chat member. */
  datatype ChatMemberStatus = Creator | Administrator | Member | Restricted | Left | Kicked

  /** The per-channel test: the user has neither left nor been removed. */
  predicate StillMember(s: ChatMemberStatus)
  {
    !(s == Left || s == Kicked)
  }

  /** The JavaScript values the fold passes around: the initial `true`, then
      the numbers produced by `stat * userLeft`. */
  datatype JsValue = JsBool(b: bool) | JsNumber(n: int)

  /** JavaScript's ToNumber on the values above (`true` is 1, `false` is 0). */
  function ToNumber(v: JsValue): int
  {
    match v
    case JsBool(b) => if b then 1 else 0
    case JsNumber(n) => n
  }

  /** JavaScript truthiness: `false` and the number 0 are falsy. */
  predicate Truthy(v: JsValue)
  {
    match v
    case JsBool(b) => b
    case JsNumber(n) => n != 0
  }

  /** The two channels the gate checks, in the order the source lists them. */
  const Channels: seq<int> := [-1002193506007, -1002240023653]

  /** True when the user is still a member of every channel in `channels`. */
  ghost predicate MemberOfAll(channels: seq<int>, status: int -> ChatMemberStatus)
  {
    forall c :: c in channels ==> StillMember(status(c))
  }

  /** One step of the reduce: the accumulator times the per-channel boolean. */
  function Combine(stat: JsValue, present: bool): JsValue
  {
    JsNumber(ToNumber(stat) * (if present then 1 else 0))
  }

  /** `channels.reduce(step, stat)`, left to right; `status(c)` is the
      user's status in channel `c` as the chat-member lookup reports it. */
  function Fold(stat: JsValue, channels: seq<int>, status: int -> ChatMemberStatus): JsValue
    decreases |channels|
  {
    if channels == [] then stat
    else Fold(Combine(stat, StillMember(status(channels[0]))), channels[1..], status)
  }

  /** A non-empty fold is the starting number times 1 or 0, the factor
      being 1 exactly when the user is still in every listed channel. */
  lemma {:induction false} FoldValue(stat: JsValue, channels: seq<int>, status: int -> ChatMemberStatus)
    requires channels != []
    ensures Fold(stat, channels, status)
         == JsNumber(ToNumber(stat) * (if MemberOfAll(channels, status) then 1 else 0))
    decreases |channels|
  {
    var next := Combine(stat, StillMember(status(channels[0])));
    if |channels| > 1 {
      FoldValue(next, channels[1..], status);
      assert MemberOfAll(channels, status)
         <==> StillMember(status(channels[0])) && MemberOfAll(channels[1..], status) by {
        assert forall c :: c in channels <==> c == channels[0] || c in channels[1..];
      }
    } else {
      assert channels[1..] == [];
      assert Fold(stat, channels, status) == next;
      assert MemberOfAll(channels, status) <==> StillMember(status(channels[0])) by {
        assert forall c :: c in channels <==> c == channels[0];
      }
    }
  }

  /** `accountValid`: the fold over the two fixed channels from `true`. The
      result is always the number 0 or 1, and it is truthy exactly when the
      user is still in both channels. */
  function AccountValid(status: int -> ChatMemberStatus): (r: JsValue)
    ensures r == JsNumber(0) || r == JsNumber(1)
    ensures Truthy(r) <==> StillMember(status(Channels[0])) && StillMember(status(Channels[1]))
  {
    FoldValue(JsBool(true), Channels, status);
    assert MemberOfAll(Channels, status)
       <==> StillMember(status(Channels[0])) && StillMember(status(Channels[1]));
    Fold(JsBool(true), Channels, status)
  }

  /** "left" or "kicked" in either fixed channel makes the gate return 0. */
  lemma {:induction false} LeftOrKickedFails(status: int -> ChatMemberStatus, c: int)
    requires c in Channels
    requires status(c) == Left || status(c) == Kicked
    ensures AccountValid(status) == JsNumber(0)
  {
  }

  /** The fold from `true` does not depend on the order of the channels:
      any rearrangement of a non-empty list gives the same number. */
  lemma {:induction false} FoldOrderIndependent(a: seq<int>, b: seq<int>, status: int -> ChatMemberStatus)
    requires multiset(a) == multiset(b)
    requires a != []
    ensures Fold(JsBool(true), a, status) == Fold(JsBool(true), b, status)
  {
    assert |b| == |multiset(b)| == |multiset(a)| == |a|;
    FoldValue(JsBool(true), a, status);
    FoldValue(JsBool(true), b, status);
    assert forall c :: c in a <==> c in b by {
      forall c ensures c in a <==> c in b {
        assert c in a <==> c in multiset(a);
        assert c in b <==> c in multiset(b);
      }
    }
  }
}
