/** Per-guild settings (`GuildSettings` rows) and the settings service.
    The table is a map from guild id to its row; a guild without a row has
    the default prefix and no log channel or muted role. */
module Settings {
  import opened Common

  /** The prefix a new row gets, and the one reported for a guild without a row. */
  const DefaultPrefix: string := "!"

  datatype GuildSettings = GuildSettings(
    guild: Id,
    prefix: string,
    logChannel: Option<Id>,
    mutedRole: Option<Id>)

  /** The table: every row is stored under its own guild id (its primary key). */
  type Store = st: map<Id, GuildSettings> | forall g :: g in st ==> st[g].guild == g
    witness map[]

  /** The row of guild `g`, or the row a fresh insert would create. */
  function RowOrNew(st: Store, g: Id): GuildSettings {
    if g in st then st[g] else GuildSettings(g, DefaultPrefix, None, None)
  }

  /** `GetGuildPrefixAsync`: the stored prefix, or "!" when the guild has no row. */
  function GetPrefix(st: Store, g: Id): (p: string)
    ensures g !in st ==> p == DefaultPrefix
    ensures g in st ==> p == st[g].prefix
  {
    RowOrNew(st, g).prefix
  }

  /** `SetGuildPrefixAsync`: update the prefix of the existing row, or insert
      a row holding only the guild id and the prefix. */
  function SetPrefix(st: Store, g: Id, p: string): (r: Store)
    ensures r.Keys == st.Keys + {g}
    ensures r[g].guild == g && r[g].prefix == p
    ensures g in st ==> r[g].logChannel == st[g].logChannel && r[g].mutedRole == st[g].mutedRole
    ensures g !in st ==> r[g].logChannel.None? && r[g].mutedRole.None?
    ensures forall h :: h in st && h != g ==> r[h] == st[h]
  {
    st[g := RowOrNew(st, g).(prefix := p)]
  }

  /** `GetModerationLogChannelAsync`: the configured audit channel, if any. */
  function GetLogChannel(st: Store, g: Id): (c: Option<Id>)
    ensures g !in st ==> c.None?
    ensures g in st ==> c == st[g].logChannel
  {
    RowOrNew(st, g).logChannel
  }

  /** `SetModerationLogChannelAsync`: upsert of the audit channel; a new row
      gets the default prefix. */
  function SetLogChannel(st: Store, g: Id, c: Id): (r: Store)
    ensures r.Keys == st.Keys + {g}
    ensures r[g].guild == g && r[g].logChannel == Some(c)
    ensures r[g].prefix == GetPrefix(st, g) && r[g].mutedRole == GetMutedRole(st, g)
    ensures forall h :: h in st && h != g ==> r[h] == st[h]
  {
    st[g := RowOrNew(st, g).(logChannel := Some(c))]
  }

  /** `GetMutedRoleIdAsync`: the configured muted role, or none before any set. */
  function GetMutedRole(st: Store, g: Id): (role: Option<Id>)
    ensures g !in st ==> role.None?
    ensures g in st ==> role == st[g].mutedRole
  {
    RowOrNew(st, g).mutedRole
  }

  /** `SetMutedRoleIdAsync`: upsert of the muted role. */
  function SetMutedRole(st: Store, g: Id, role: Id): (r: Store)
    ensures r.Keys == st.Keys + {g}
    ensures r[g].guild == g && r[g].mutedRole == Some(role)
    ensures r[g].prefix == GetPrefix(st, g) && r[g].logChannel == GetLogChannel(st, g)
    ensures forall h :: h in st && h != g ==> r[h] == st[h]
  {
    st[g := RowOrNew(st, g).(mutedRole := Some(role))]
  }

  /** Set then get: the prefix read back is the one written, and every other
      guild reads what it read before. */
  lemma PrefixRoundTrip(st: Store, g: Id, p: string, h: Id)
    ensures GetPrefix(SetPrefix(st, g, p), g) == p
    ensures h != g ==> GetPrefix(SetPrefix(st, g, p), h) == GetPrefix(st, h)
    ensures GetLogChannel(SetPrefix(st, g, p), h) == GetLogChannel(st, h)
    ensures GetMutedRole(SetPrefix(st, g, p), h) == GetMutedRole(st, h)
  {
  }

  /** Set then get for the audit channel and the muted role. */
  lemma ChannelAndRoleRoundTrip(st: Store, g: Id, c: Id, role: Id, h: Id)
    ensures GetLogChannel(SetLogChannel(st, g, c), g) == Some(c)
    ensures GetMutedRole(SetMutedRole(st, g, role), g) == Some(role)
    ensures GetPrefix(SetLogChannel(st, g, c), h) == GetPrefix(st, h)
    ensures GetPrefix(SetMutedRole(st, g, role), h) == GetPrefix(st, h)
    ensures h != g ==> GetLogChannel(SetLogChannel(st, g, c), h) == GetLogChannel(st, h)
    ensures h != g ==> GetMutedRole(SetMutedRole(st, g, role), h) == GetMutedRole(st, h)
  {
  }

  /** Writing the same prefix twice is the same as writing it once. */
  lemma SetPrefixIdempotent(st: Store, g: Id, p: string)
    ensures SetPrefix(SetPrefix(st, g, p), g, p) == SetPrefix(st, g, p)
  {
  }
}
