/** The command permission gate (`PermissionCheckAttribute` and
    `PermissionCheck.ExecuteCheckAsync`), as written and as its doc comments
    describe it. */
module Permission {
  import opened Common

  /** The fixed list of bot developers. */
  const DeveloperIds: seq<Id> := [509585751487545345]

  const DevOnlyReason: string := "This command is only available to bot developers."
  const DevOnlyReply: string := "Dev Only"
  const NoPermissionReason: string := "You do not have permission to run this command."
  const NoPermissionReply: string := "You do not have permission to do this!"

  /** The attribute on a command method. */
  datatype PermissionAttribute = PermissionAttribute(permissionKey: string, userBypass: bool, developerOnly: bool)

  /** The invoking guild member: its administrator permission and its roles. */
  datatype Member = Member(isAdministrator: bool, roles: set<Id>)

  /** The invoker; `member` is missing outside a guild. */
  datatype Caller = Caller(user: Id, member: Option<Member>)

  /** `null` (allow), or a reason string together with the ephemeral reply
      sent to the invoker, or an exception. */
  datatype Verdict = Allow | Deny(reason: string, reply: string) | Fault

  /** `ExecuteCheckAsync` as written: developer-only commands consult the
      developer list alone; any other command admits administrators and
      denies everyone else. Without a member, `context.Member!` throws. */
  function Check(attr: PermissionAttribute, caller: Caller): (v: Verdict)
    ensures attr.developerOnly ==> (v == Allow <==> caller.user in DeveloperIds)
    ensures attr.developerOnly && caller.user !in DeveloperIds ==> v == Deny(DevOnlyReason, DevOnlyReply)
    ensures !attr.developerOnly ==> (v == Fault <==> caller.member.None?)
    ensures !attr.developerOnly && caller.member.Some? ==> (v == Allow <==> caller.member.value.isAdministrator)
    ensures !attr.developerOnly && caller.member.Some? && v != Allow ==> v == Deny(NoPermissionReason, NoPermissionReply)
  {
    if attr.developerOnly then
      if caller.user in DeveloperIds then Allow else Deny(DevOnlyReason, DevOnlyReply)
    else
      match caller.member
      case None => Fault
      case Some(m) => if m.isAdministrator then Allow else Deny(NoPermissionReason, NoPermissionReply)
  }

  /** The verdict reads only `developerOnly` of the attribute: two attributes
      that agree on it give the same verdict for every caller, whatever their
      permission keys and bypass flags. */
  lemma VerdictIgnoresKeyAndBypass(a: PermissionAttribute, b: PermissionAttribute, caller: Caller)
    requires a.developerOnly == b.developerOnly
    ensures Check(a, caller) == Check(b, caller)
  {
  }

  /** Developer-only overrides the administrator permission: an administrator
      who is not a developer is denied. */
  lemma DeveloperOnlyOverridesAdministrator(attr: PermissionAttribute, user: Id, roles: set<Id>)
    requires attr.developerOnly && user !in DeveloperIds
    ensures Check(attr, Caller(user, Some(Member(true, roles)))).Deny?
  {
  }

  // ---------------------------------------------------------------------------
  // The documented gate
  // ---------------------------------------------------------------------------

  /** A guild's allow-list for one permission key. */
  datatype AllowList = AllowList(users: set<Id>, roles: set<Id>)

  predicate IsEmptyList(l: AllowList) {
    l.users == {} && l.roles == {}
  }

  /** The allow-list of `key`, empty when the guild configured none. */
  function ListFor(config: map<string, AllowList>, key: string): AllowList {
    if key in config then config[key] else AllowList({}, {})
  }

  predicate Listed(l: AllowList, user: Id, m: Member) {
    user in l.users || l.roles * m.roles != {}
  }

  /** The gate the attribute's doc comments describe: developer-only as
      written; administrators pass; otherwise a non-empty allow-list for the
      key admits the users and roles on it, and an empty one admits everyone
      exactly when `userBypass` is set. */
  function CheckDocumented(attr: PermissionAttribute, caller: Caller, config: map<string, AllowList>): (v: Verdict)
    ensures attr.developerOnly || caller.member.None? ==> v == Check(attr, caller)
    ensures !attr.developerOnly && caller.member.Some? && caller.member.value.isAdministrator ==> v == Allow
    ensures !attr.developerOnly && caller.member.Some? && !caller.member.value.isAdministrator ==>
              var l := ListFor(config, attr.permissionKey);
              && (!IsEmptyList(l) ==> (v == Allow <==> Listed(l, caller.user, caller.member.value)))
              && (IsEmptyList(l) ==> (v == Allow <==> attr.userBypass))
              && (v != Allow ==> v == Deny(NoPermissionReason, NoPermissionReply))
  {
    if attr.developerOnly then Check(attr, caller)
    else
      match caller.member
      case None => Fault
      case Some(m) =>
        if m.isAdministrator then Allow
        else
          var l := ListFor(config, attr.permissionKey);
          if (if IsEmptyList(l) then attr.userBypass else Listed(l, caller.user, m)) then Allow
          else Deny(NoPermissionReason, NoPermissionReply)
  }

  /** The documented gate only widens the written one: whatever `Check`
      allows it allows, and with no allow-list configured and no bypass the
      two agree. */
  lemma DocumentedExtendsWritten(attr: PermissionAttribute, caller: Caller, config: map<string, AllowList>)
    ensures Check(attr, caller) == Allow ==> CheckDocumented(attr, caller, config) == Allow
    ensures IsEmptyList(ListFor(config, attr.permissionKey)) && !attr.userBypass ==>
              CheckDocumented(attr, caller, config) == Check(attr, caller)
  {
  }

  /** The discrepancy: the ping command carries `userBypass: true`, and with
      no allow-list configured an ordinary member should pass; as written it
      is denied. */
  lemma BypassIgnoredAsWritten()
    ensures var ping := PermissionAttribute("ping_command", true, false);
            var caller := Caller(1, Some(Member(false, {})));
            && Check(ping, caller) == Deny(NoPermissionReason, NoPermissionReply)
            && CheckDocumented(ping, caller, map[]) == Allow
  {
  }
}
