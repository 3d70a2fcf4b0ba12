/** The `prefix` command: show the guild's prefix, or store a new one, with
    a warning for a prefix that is too long. */
module PrefixCommand {
  import opened Common
  import Settings

  const MaxPrefixLength: nat := 3
  const TooLongText: string := "\U{274C} The prefix is too long. It must be between 1 and 3 characters. (e.g., **`~!`**)"

  function CurrentText(p: string): string {
    "The Current prefix is **`" + p + "`**"
  }

  function UpdatedText(p: string): string {
    "prefix has been updated to **`" + p + "`**"
  }

  /** `prefix?.Length > 3`, where `Length` counts UTF-16 code units. */
  function TooLong(prefix: Option<string>): (b: bool)
    ensures prefix.None? ==> !b
    ensures prefix.Some? && |prefix.value| > MaxPrefixLength ==> b
    ensures prefix.Some? && |prefix.value| <= 1 ==> !b
    ensures prefix.Some? && (forall i :: 0 <= i < |prefix.value| ==> prefix.value[i] as int <= 0xFFFF) ==>
              (b <==> |prefix.value| > MaxPrefixLength)
  {
    match prefix
    case None => false
    case Some(p) =>
      Utf16LengthIsLength(p);
      Utf16Length(p) > MaxPrefixLength
  }

  /** The read-or-write branch shared by both versions below. */
  function ReadOrWrite(st: Settings.Store, g: Id, prefix: Option<string>): (r: (Settings.Store, seq<Effect>))
  {
    match prefix
    case None => (st, [Reply(CurrentText(Settings.GetPrefix(st, g)))])
    case Some(p) => (Settings.SetPrefix(st, g, p), [Reply(UpdatedText(p))])
  }

  /** The handler as written: the length warning does not return, so an
      over-long prefix is warned about and then stored anyway. */
  function PrefixAsWritten(st: Settings.Store, g: Id, prefix: Option<string>): (r: (Settings.Store, seq<Effect>))
    ensures prefix.None? ==> r.0 == st && r.1 == [Reply(CurrentText(Settings.GetPrefix(st, g)))]
    ensures prefix.Some? ==> Settings.GetPrefix(r.0, g) == prefix.value
    ensures TooLong(prefix) ==> r.1 == [Reply(TooLongText), Reply(UpdatedText(prefix.value))]
  {
    var warning := if TooLong(prefix) then [Reply(TooLongText)] else [];
    var (st', replies) := ReadOrWrite(st, g, prefix);
    (st', warning + replies)
  }

  /** The handler as its warning intends: an over-long prefix is refused and
      the store is left alone. */
  function Prefix(st: Settings.Store, g: Id, prefix: Option<string>): (r: (Settings.Store, seq<Effect>))
    ensures TooLong(prefix) ==> r == (st, [Reply(TooLongText)])
    ensures prefix.None? ==> r.0 == st && r.1 == [Reply(CurrentText(Settings.GetPrefix(st, g)))]
    ensures prefix.Some? && !TooLong(prefix) ==> r.0 == Settings.SetPrefix(st, g, prefix.value) && r.1 == [Reply(UpdatedText(prefix.value))]
    ensures |r.1| == 1
    ensures forall h :: h != g ==> Settings.GetPrefix(r.0, h) == Settings.GetPrefix(st, h)
  {
    if TooLong(prefix) then (st, [Reply(TooLongText)]) else ReadOrWrite(st, g, prefix)
  }

  /** The two versions agree except on over-long prefixes, which the
      intended version refuses and the written one stores. */
  lemma AgreeUnlessTooLong(st: Settings.Store, g: Id, prefix: Option<string>)
    ensures !TooLong(prefix) ==> Prefix(st, g, prefix) == PrefixAsWritten(st, g, prefix)
    ensures TooLong(prefix) ==>
              Prefix(st, g, prefix).0 == st && Settings.GetPrefix(PrefixAsWritten(st, g, prefix).0, g) == prefix.value
  {
    var replies := ReadOrWrite(st, g, prefix).1;
    assert [] + replies == replies;
  }

  /** The discrepancy: "abcd" draws the warning, yet becomes the prefix. */
  lemma OverlongPrefixStoredAsWritten(st: Settings.Store, g: Id)
    ensures TooLong(Some("abcd"))
    ensures var r := PrefixAsWritten(st, g, Some("abcd"));
            Settings.GetPrefix(r.0, g) == "abcd" && |r.1| == 2 && r.1[0] == Reply(TooLongText)
    ensures var r := Prefix(st, g, Some("abcd"));
            Settings.GetPrefix(r.0, g) == Settings.GetPrefix(st, g) && r.1 == [Reply(TooLongText)]
  {
    assert Utf16Length("abcd") == 4 by {
      assert "abcd"[1..] == "bcd" && "bcd"[1..] == "cd" && "cd"[1..] == "d" && "d"[1..] == "";
    }
  }

  /** Two characters above the Basic Multilingual Plane are four UTF-16 code
      units, so two emoji count as an over-long prefix: the written handler
      warns and stores them, the intended one refuses them. */
  lemma TwoEmojiAreTooLong(st: Settings.Store, g: Id)
    ensures TooLong(Some("\U{1F600}\U{1F600}"))
    ensures |PrefixAsWritten(st, g, Some("\U{1F600}\U{1F600}")).1| == 2
    ensures Prefix(st, g, Some("\U{1F600}\U{1F600}")).0 == st
  {
    var p := "\U{1F600}\U{1F600}";
    assert Utf16Length(p) == 4 by {
      assert p[1..] == "\U{1F600}" && p[1..][1..] == "";
    }
  }

  /** Set then show: after storing an acceptable prefix, the command with no
      argument reports it. */
  lemma ShowAfterSet(st: Settings.Store, g: Id, p: string)
    requires Utf16Length(p) <= MaxPrefixLength
    ensures var after := Prefix(st, g, Some(p)).0;
            Prefix(after, g, None) == (after, [Reply(CurrentText(p))])
  {
  }
}
