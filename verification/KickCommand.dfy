/** The `kick` command: the target guard, the evidence check, then the DM,
    the ledger entry, the reply and the removal, in that order. */
module KickCommand {
  import opened Common
  import Settings
  import Ledger
  import Evidence

  const CannotKickText: string := "You cannot kick this user. They are an administrator, a bot, or yourself."
  const KickedTitle: string := "User Kicked."

  /** The member to kick, as the command sees it. */
  datatype Target = Target(id: Id, isAdministrator: bool, isBot: bool)

  /** The command's arguments and context. */
  datatype KickArgs = KickArgs(
    guild: Id,
    invoker: Id,
    target: Target,
    reason: Option<string>,
    image: Option<Evidence.Attachment>,
    sendReason: bool)

  /** What a run leaves behind: the ledger and the effects in order, or an
      exception (a null media type on the attachment). */
  datatype Outcome = Outcome(ledger: Ledger.Cases, effects: seq<Effect>) | Faulted

  /** Administrators, bots and the invoker themself cannot be kicked. */
  function Eligible(invoker: Id, t: Target): (b: bool)
    ensures t.id == invoker ==> !b
    ensures t.isAdministrator || t.isBot ==> !b
    ensures !t.isAdministrator && !t.isBot ==> (b <==> t.id != invoker)
  {
    !t.isAdministrator && t.id != invoker && !t.isBot
  }

  /** The row the command logs. */
  function KickRequest(args: KickArgs): Ledger.Request {
    Ledger.Request(args.guild, Some(args.target.id), args.invoker, Ledger.ModerationType.Kick.Name(), args.reason, None, None, None)
  }

  /** The DM to the target, carrying the reason when one is given and is to
      be sent; a failed DM is swallowed. */
  function KickDm(args: KickArgs, dmFails: bool): (e: seq<Effect>)
    ensures |e| <= 1
    ensures e == [] <==> dmFails
  {
    if dmFails then []
    else [DirectMessage(args.target.id, if args.sendReason && args.reason.Some? then args.reason.value else "")]
  }

  /** The `kick` handler. */
  function Kick(s: Ledger.Cases, st: Settings.Store, args: KickArgs, now: Time, dmFails: bool): (r: Outcome)
    ensures !Eligible(args.invoker, args.target) ==> r == Outcome(s, [Reply(CannotKickText)])
    ensures Eligible(args.invoker, args.target) && Evidence.CheckImage(args.image) == Evidence.Rejected ==>
              r == Outcome(s, [Reply(Evidence.BadImageText)])
    ensures r == Faulted <==> Eligible(args.invoker, args.target) && Evidence.CheckImage(args.image) == Evidence.Throws
    ensures Eligible(args.invoker, args.target) && Evidence.CheckImage(args.image) == Evidence.Accepted ==>
              && r.Outcome?
              && r.ledger == Ledger.Append(s, KickRequest(args), now)
              && |r.effects| >= 3
              && r.effects[|r.effects| - 1] == RemoveMember(args.guild, args.target.id)
              && r.effects[|r.effects| - 2] == Reply(KickedTitle)
              && Recorded(args.guild, r.ledger[|s|].caseNumber) in r.effects[..|r.effects| - 2]
  {
    if !Eligible(args.invoker, args.target) then Outcome(s, [Reply(CannotKickText)])
    else
      match Evidence.CheckImage(args.image)
      case Throws => Faulted
      case Rejected => Outcome(s, [Reply(Evidence.BadImageText)])
      case Accepted =>
        var dm := KickDm(args, dmFails);
        var (s', logged) := Ledger.LogModeratorAction(s, st, KickRequest(args), true, now);
        var effects := dm + logged + [Reply(KickedTitle), RemoveMember(args.guild, args.target.id)];
        assert effects[..|effects| - 2] == dm + logged;
        assert logged[0] in dm + logged;
        Outcome(s', effects)
  }

  /** A member is removed exactly when a "kick" row naming them is recorded,
      and both happen exactly when the target is eligible and the attachment
      passes; a run that removes no one leaves the ledger as it was. */
  lemma RemovedIffRecorded(s: Ledger.Cases, st: Settings.Store, args: KickArgs, now: Time, dmFails: bool)
    requires Kick(s, st, args, now, dmFails).Outcome?
    ensures var r := Kick(s, st, args, now, dmFails);
            && (RemoveMember(args.guild, args.target.id) in r.effects
                <==> Eligible(args.invoker, args.target) && Evidence.CheckImage(args.image) == Evidence.Accepted)
            && (RemoveMember(args.guild, args.target.id) in r.effects <==> |r.ledger| == |s| + 1)
            && (RemoveMember(args.guild, args.target.id) !in r.effects ==> r.ledger == s)
            && (|r.ledger| == |s| + 1 ==>
                  r.ledger[|s|].actionType == "kick" && r.ledger[|s|].user == Some(args.target.id)
                  && r.ledger[|s|].moderator == args.invoker)
  {
  }
}
