/** The `purge` command: amount adjustment and bounds, selection of the
    messages to delete, the ledger entry and the reported count. */
module PurgeCommand {
  import opened Common
  import Settings
  import Ledger

  /** How many recent messages are fetched from the channel. */
  const FetchLimit: nat := 100
  const MinAmount: int := 1
  const MaxAmount: int := 100
  const SecondsPerMinute: nat := 60
  /** Messages this old or older cannot be bulk-deleted (14 days, in seconds). */
  const MaxAgeSeconds: nat := 14 * 86400

  const AmountErrorText: string := "\U{274C} Amount must be between 1 and 100."
  const NoMatchesText: string := "\U{274C} No matching messages found to delete."

  datatype Message = Message(id: Id, author: Id, createdAt: Time)

  /** A text command carries the id of the message that invoked it; a slash
      command has none. */
  datatype Invocation = TextCommand(commandMessage: Id) | SlashCommand

  datatype PurgeArgs = PurgeArgs(
    guild: Id,
    invoker: Id,
    invocation: Invocation,
    amount: int,
    time: Option<int>,        // minutes
    user: Option<Id>,
    channel: Option<Id>,
    currentChannel: Id)

  /** The amount after counting the invoking message of a text command. */
  function AdjustedAmount(args: PurgeArgs): (n: int)
    ensures n >= args.amount
    ensures AmountInRange(n) <==>
              if args.invocation.TextCommand? then 0 <= args.amount <= 99 else 1 <= args.amount <= 100
  {
    if args.invocation.TextCommand? then args.amount + 1 else args.amount
  }

  predicate AmountInRange(n: int) {
    MinAmount <= n <= MaxAmount
  }

  /** The `Where` of the command: the author filter, the age filter in
      minutes, and the 14-day limit. */
  function Eligible(m: Message, args: PurgeArgs, now: Time): (b: bool)
    ensures b ==> now - m.createdAt < MaxAgeSeconds
    ensures args.user.None? && args.time.None? ==> (b <==> now - m.createdAt < MaxAgeSeconds)
    ensures args.time.Some? && SecondsPerMinute * args.time.value >= MaxAgeSeconds ==>
              (b <==> (args.user.None? || m.author == args.user.value) && now - m.createdAt < MaxAgeSeconds)
  {
    && (args.user.None? || m.author == args.user.value)
    && (args.time.None? || now - m.createdAt <= SecondsPerMinute * args.time.value)
    && now - m.createdAt < MaxAgeSeconds
  }

  /** The first `n` elements of `xs` (all of them when there are fewer). */
  function Prefix(xs: seq<Message>, n: int): (r: seq<Message>)
    ensures |r| == if n <= 0 then 0 else if n < |xs| then n else |xs|
    ensures r == xs[..|r|]
  {
    if n <= 0 then [] else if n < |xs| then xs[..n] else xs
  }

  /** `Where(...).Take(amount)` over the fetched messages, in fetch order. */
  function Select(fetched: seq<Message>, args: PurgeArgs, now: Time, amount: int): (r: seq<Message>)
    ensures |r| <= |fetched| && (amount <= 0 ==> r == [])
    ensures amount > 0 ==> |r| <= amount
    ensures forall m :: m in r ==> m in fetched && Eligible(m, args, now)
    ensures |r| <= |Matching(fetched, args, now)| && r == Matching(fetched, args, now)[..|r|]
    ensures amount > 0 ==> |r| == if amount < |Matching(fetched, args, now)| then amount else |Matching(fetched, args, now)|
  {
    Prefix(Matching(fetched, args, now), amount)
  }

  /** Every eligible message of `xs`, in order. */
  function Matching(xs: seq<Message>, args: PurgeArgs, now: Time): (r: seq<Message>)
    ensures |r| <= |xs|
    ensures forall m :: m in r <==> m in xs && Eligible(m, args, now)
  {
    if |xs| == 0 then []
    else (if Eligible(xs[0], args, now) then [xs[0]] else []) + Matching(xs[1..], args, now)
  }

  /** The selection keeps fetch order: of two selected messages, the earlier
      one comes from an earlier fetch position. */
  lemma {:induction false} MatchingKeepsOrder(xs: seq<Message>, args: PurgeArgs, now: Time, i: nat, j: nat)
    requires i < j < |Matching(xs, args, now)|
    ensures exists a, b :: 0 <= a < b < |xs| && xs[a] == Matching(xs, args, now)[i] && xs[b] == Matching(xs, args, now)[j]
    decreases |xs|
  {
    var r := Matching(xs, args, now);
    var rest := Matching(xs[1..], args, now);
    var head := if Eligible(xs[0], args, now) then [xs[0]] else [];
    assert r == head + rest;
    if head == [] {
      MatchingKeepsOrder(xs[1..], args, now, i, j);
      var a, b :| 0 <= a < b < |xs[1..]| && xs[1..][a] == rest[i] && xs[1..][b] == rest[j];
      assert xs[a + 1] == r[i] && xs[b + 1] == r[j];
    } else if i == 0 {
      assert r[j] == rest[j - 1] && rest[j - 1] in xs[1..];
      var b :| 0 <= b < |xs[1..]| && xs[1..][b] == r[j];
      assert xs[0] == r[0] && xs[b + 1] == r[j];
    } else {
      MatchingKeepsOrder(xs[1..], args, now, i - 1, j - 1);
      var a, b :| 0 <= a < b < |xs[1..]| && xs[1..][a] == rest[i - 1] && xs[1..][b] == rest[j - 1];
      assert xs[a + 1] == r[i] && xs[b + 1] == r[j];
    }
  }

  /** Fewer than `amount` selected means every eligible message was selected. */
  lemma {:induction false} SelectTakesAllWhenShort(fetched: seq<Message>, args: PurgeArgs, now: Time, amount: int)
    requires amount > 0 && |Select(fetched, args, now, amount)| < amount
    ensures Select(fetched, args, now, amount) == Matching(fetched, args, now)
  {
  }

  function Ids(ms: seq<Message>): (r: seq<Id>)
    ensures |r| == |ms| && forall i :: 0 <= i < |ms| ==> r[i] == ms[i].id
  {
    if |ms| == 0 then [] else [ms[0].id] + Ids(ms[1..])
  }

  /** The number the confirmation reports, as written: the selection size,
      less one for a text command. */
  function ReportedCountAsWritten(selected: seq<Message>, inv: Invocation): (n: int)
    ensures inv.SlashCommand? ==> n == |selected|
    ensures inv.TextCommand? ==> n == |selected| - 1
  {
    if inv.TextCommand? then |selected| - 1 else |selected|
  }

  /** The reported count as intended: the selected messages other than the
      command message itself. */
  function ReportedCount(selected: seq<Message>, inv: Invocation): (n: nat)
    ensures n <= |selected|
    ensures inv.SlashCommand? ==> n == |selected|
  {
    if |selected| == 0 then 0
    else (if inv.TextCommand? && selected[0].id == inv.commandMessage then 0 else 1) + ReportedCount(selected[1..], inv)
  }

  predicate DistinctIds(ms: seq<Message>) {
    forall i, j :: 0 <= i < j < |ms| ==> ms[i].id != ms[j].id
  }

  /** No selected message carries this id, so every one is counted. */
  lemma {:induction false} ReportedCountAbsent(selected: seq<Message>, inv: Invocation)
    requires inv.TextCommand? ==> forall m :: m in selected ==> m.id != inv.commandMessage
    ensures ReportedCount(selected, inv) == |selected|
  {
    if |selected| > 0 {
      assert selected[0] in selected;
      assert forall m :: m in selected[1..] ==> m in selected;
      ReportedCountAbsent(selected[1..], inv);
    }
  }

  /** The written count is right when the command message is the first
      selected message (its own channel, no author filter excluding the
      invoker, no age filter excluding it). */
  lemma WrittenCountRightWhenCommandSelected(selected: seq<Message>, inv: Invocation)
    requires inv.TextCommand? && |selected| > 0 && selected[0].id == inv.commandMessage && DistinctIds(selected)
    ensures ReportedCountAsWritten(selected, inv) == ReportedCount(selected, inv)
  {
    var rest := selected[1..];
    forall m | m in rest
      ensures m.id != inv.commandMessage
    {
      var k :| 0 <= k < |rest| && rest[k] == m;
      assert selected[k + 1] == m;
    }
    ReportedCountAbsent(rest, inv);
  }

  /** With the command message selected at any position, every other
      selected message is counted. */
  lemma {:induction false} ReportedCountPresent(selected: seq<Message>, inv: Invocation, k: nat)
    requires inv.TextCommand? && DistinctIds(selected) && k < |selected| && selected[k].id == inv.commandMessage
    ensures ReportedCount(selected, inv) == |selected| - 1
    decreases |selected|
  {
    if k == 0 {
      WrittenCountRightWhenCommandSelected(selected, inv);
    } else {
      var rest := selected[1..];
      assert selected[0].id != selected[k].id;
      assert rest[k - 1] == selected[k];
      assert DistinctIds(rest) by {
        forall i, j | 0 <= i < j < |rest|
          ensures rest[i].id != rest[j].id
        {
          assert rest[i] == selected[i + 1] && rest[j] == selected[j + 1];
        }
      }
      ReportedCountPresent(rest, inv, k - 1);
    }
  }

  /** For a text command, the written count is right exactly when the
      command message is among the selected ones, and one short otherwise. */
  lemma WrittenCountRightIffCommandSelected(selected: seq<Message>, inv: Invocation)
    requires inv.TextCommand? && DistinctIds(selected)
    ensures ReportedCountAsWritten(selected, inv) == ReportedCount(selected, inv) <==>
              exists k :: 0 <= k < |selected| && selected[k].id == inv.commandMessage
    ensures (forall k :: 0 <= k < |selected| ==> selected[k].id != inv.commandMessage) ==>
              ReportedCountAsWritten(selected, inv) == ReportedCount(selected, inv) - 1
  {
    if k :| 0 <= k < |selected| && selected[k].id == inv.commandMessage {
      ReportedCountPresent(selected, inv, k);
    } else {
      forall m | m in selected
        ensures m.id != inv.commandMessage
      {
        var k :| 0 <= k < |selected| && selected[k] == m;
      }
      ReportedCountAbsent(selected, inv);
    }
  }

  /** The discrepancy: `!purge 2` filtered to another author, in a channel
      holding two fresh messages by that author, deletes both (the adjusted
      amount is 3) and reports one. */
  lemma WrittenCountShortWithAuthorFilter()
    ensures var args := PurgeArgs(1, 10, TextCommand(100), 2, None, Some(20), None, 5);
            var history := [Message(100, 10, 0), Message(101, 20, 0), Message(102, 20, 0)];
            var selected := Select(history, args, 0, AdjustedAmount(args));
            && selected == [Message(101, 20, 0), Message(102, 20, 0)]
            && ReportedCountAsWritten(selected, args.invocation) == 1
            && ReportedCount(selected, args.invocation) == 2
  {
    var args := PurgeArgs(1, 10, TextCommand(100), 2, None, Some(20), None, 5);
    var history := [Message(100, 10, 0), Message(101, 20, 0), Message(102, 20, 0)];
    assert history[1..] == [Message(101, 20, 0), Message(102, 20, 0)];
    assert history[1..][1..] == [Message(102, 20, 0)];
    assert Matching(history, args, 0) == [Message(101, 20, 0), Message(102, 20, 0)];
  }

  function DeletedText(n: nat): string {
    "\U{2705} Deleted " + NatToString(n) + " message(s)."
  }

  datatype Outcome = Outcome(ledger: Ledger.Cases, effects: seq<Effect>)

  /** The row a purge logs: no subject, no reason. */
  function PurgeRequest(args: PurgeArgs): Ledger.Request {
    Ledger.Request(args.guild, None, args.invoker, Ledger.ModerationType.Purge.Name(), None, None, None, None)
  }

  /** The `purge` handler, with the channel's recent messages (newest first)
      as input. The confirmation reports the corrected count. */
  function Purge(s: Ledger.Cases, st: Settings.Store, args: PurgeArgs, history: seq<Message>, now: Time): (r: Outcome)
    ensures !AmountInRange(AdjustedAmount(args)) ==> r == Outcome(s, [Reply(AmountErrorText)])
    ensures var selected := Select(Prefix(history, FetchLimit), args, now, AdjustedAmount(args));
            && (AmountInRange(AdjustedAmount(args)) && selected == [] ==> r == Outcome(s, [Reply(NoMatchesText)]))
            && (AmountInRange(AdjustedAmount(args)) && selected != [] ==>
                  && r.ledger == Ledger.Append(s, PurgeRequest(args), now)
                  && |r.effects| >= 4
                  && r.effects[0] == Recorded(args.guild, r.ledger[|s|].caseNumber)
                  && r.effects[|r.effects| - 3] == DeleteMessages(args.channel.GetOr(args.currentChannel), Ids(selected))
                  && r.effects[|r.effects| - 2] == Reply(DeletedText(ReportedCount(selected, args.invocation)))
                  && r.effects[|r.effects| - 1] == DeleteResponse)
  {
    var amount := AdjustedAmount(args);
    if !AmountInRange(amount) then Outcome(s, [Reply(AmountErrorText)])
    else
      var selected := Select(Prefix(history, FetchLimit), args, now, amount);
      if selected == [] then Outcome(s, [Reply(NoMatchesText)])
      else
        var (s', logged) := Ledger.LogModeratorAction(s, st, PurgeRequest(args), true, now);
        var channel := args.channel.GetOr(args.currentChannel);
        var effects := logged + [DeleteMessages(channel, Ids(selected)),
                                 Reply(DeletedText(ReportedCount(selected, args.invocation))),
                                 DeleteResponse];
        Outcome(s', effects)
  }

  /** Nothing is deleted or logged unless the adjusted amount is in range and
      something matched; what is deleted is at most the adjusted amount of
      eligible messages from the channel's latest hundred, in fetch order. */
  lemma PurgeDeletesOnlyEligible(s: Ledger.Cases, st: Settings.Store, args: PurgeArgs, history: seq<Message>, now: Time)
    ensures var r := Purge(s, st, args, history, now);
            && (r.ledger != s <==> exists ch, ids :: DeleteMessages(ch, ids) in r.effects)
            && forall ch, ids :: DeleteMessages(ch, ids) in r.effects ==>
                 && AmountInRange(AdjustedAmount(args))
                 && 1 <= |ids| <= AdjustedAmount(args)
                 && forall i :: 0 <= i < |ids| ==>
                      exists k :: 0 <= k < |history| && k < FetchLimit && history[k].id == ids[i] && Eligible(history[k], args, now)
  {
    var r := Purge(s, st, args, history, now);
    var amount := AdjustedAmount(args);
    if AmountInRange(amount) {
      var fetched := Prefix(history, FetchLimit);
      var selected := Select(fetched, args, now, amount);
      if selected != [] {
        var ids := Ids(selected);
        var logged := Ledger.LogModeratorAction(s, st, PurgeRequest(args), true, now).1;
        assert r.effects == logged + [DeleteMessages(args.channel.GetOr(args.currentChannel), ids),
                                      Reply(DeletedText(ReportedCount(selected, args.invocation))), DeleteResponse];
        assert forall e :: e in logged ==> !e.DeleteMessages?;
        forall i | 0 <= i < |ids|
          ensures exists k :: 0 <= k < |history| && k < FetchLimit && history[k].id == ids[i] && Eligible(history[k], args, now)
        {
          assert selected[i] in selected;
          assert selected[i] in fetched;
          var k :| 0 <= k < |fetched| && fetched[k] == selected[i];
          assert history[k] == fetched[k];
        }
      }
    }
  }

  /** A text-command purge of 100 is rejected: the adjusted amount is 101. */
  lemma TextPurgeOfHundredRejected(s: Ledger.Cases, st: Settings.Store, args: PurgeArgs, history: seq<Message>, now: Time)
    requires args.invocation.TextCommand? && args.amount == 100
    ensures Purge(s, st, args, history, now) == Outcome(s, [Reply(AmountErrorText)])
  {
  }
}
