/** The `config` command: store whichever of the audit channel and the muted
    role were given, and show both settings as they now stand. */
module ConfigCommand {
  import opened Common
  import Settings

  const NotSetText: string := "*Not Set*"

  /** How a channel setting is shown: a channel mention, or "*Not Set*". */
  function ChannelText(c: Option<Id>): string {
    match c
    case None => NotSetText
    case Some(id) => "<#" + NatToString(id) + ">"
  }

  /** How a role setting is shown: a role mention, or "*Not Set*". */
  function RoleText(role: Option<Id>): string {
    match role
    case None => NotSetText
    case Some(id) => "<@&" + NatToString(id) + ">"
  }

  /** The two shown values are unambiguous: equal texts mean equal settings. */
  lemma DisplayInjective(a: Option<Id>, b: Option<Id>)
    ensures ChannelText(a) == ChannelText(b) ==> a == b
    ensures RoleText(a) == RoleText(b) ==> a == b
  {
    if a.Some? && b.Some? {
      if ChannelText(a) == ChannelText(b) {
        var x, y := NatToString(a.value), NatToString(b.value);
        assert ChannelText(a) == "<#" + x + ">" && ChannelText(b) == "<#" + y + ">";
        assert x == ChannelText(a)[2..|ChannelText(a)| - 1];
        assert y == ChannelText(b)[2..|ChannelText(b)| - 1];
        NatToStringInjective(a.value, b.value);
      }
      if RoleText(a) == RoleText(b) {
        var x, y := NatToString(a.value), NatToString(b.value);
        assert RoleText(a) == "<@&" + x + ">" && RoleText(b) == "<@&" + y + ">";
        assert x == RoleText(a)[3..|RoleText(a)| - 1];
        assert y == RoleText(b)[3..|RoleText(b)| - 1];
        NatToStringInjective(a.value, b.value);
      }
    } else if a.Some? && b.None? {
      assert ChannelText(a)[0] == '<' && RoleText(a)[0] == '<';
    } else if a.None? && b.Some? {
      assert ChannelText(b)[0] == '<' && RoleText(b)[0] == '<';
    }
  }

  /** The embed's two fields and whether "Settings have been updated" shows. */
  datatype ConfigView = ConfigView(channelText: string, roleText: string, updated: bool)

  /** The `config` handler. */
  function Config(st: Settings.Store, g: Id, channel: Option<Id>, role: Option<Id>): (r: (Settings.Store, ConfigView))
    ensures r.1.updated <==> channel.Some? || role.Some?
    ensures !r.1.updated ==> r.0 == st
    ensures Settings.GetLogChannel(r.0, g) == if channel.Some? then channel else Settings.GetLogChannel(st, g)
    ensures Settings.GetMutedRole(r.0, g) == if role.Some? then role else Settings.GetMutedRole(st, g)
    ensures Settings.GetPrefix(r.0, g) == Settings.GetPrefix(st, g)
    ensures forall h :: h != g ==> (h in r.0 <==> h in st) && (h in st ==> r.0[h] == st[h])
    ensures r.1.channelText == ChannelText(Settings.GetLogChannel(r.0, g))
    ensures r.1.roleText == RoleText(Settings.GetMutedRole(r.0, g))
  {
    var st1 := if channel.Some? then Settings.SetLogChannel(st, g, channel.value) else st;
    var st2 := if role.Some? then Settings.SetMutedRole(st1, g, role.value) else st1;
    var shownChannel := if channel.Some? then channel else Settings.GetLogChannel(st, g);
    var shownRole := if role.Some? then role else Settings.GetMutedRole(st, g);
    (st2, ConfigView(ChannelText(shownChannel), RoleText(shownRole), channel.Some? || role.Some?))
  }

  /** Running the command with no arguments right after an update shows the
      values the update stored, and stores nothing more. */
  lemma ConfigShowsWhatItStored(st: Settings.Store, g: Id, channel: Option<Id>, role: Option<Id>)
    ensures var after := Config(st, g, channel, role);
            var again := Config(after.0, g, None, None);
            && again.0 == after.0
            && again.1 == after.1.(updated := false)
  {
  }
}
