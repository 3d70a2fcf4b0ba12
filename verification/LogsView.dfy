/** The `viewlog` command: look a case up by number and render it, with the
    duration formatter it uses. */
module LogsView {
  import opened Common
  import Ledger

  const NotFoundText: string := "That log dosnt exist"

  /** `TimeSpan.Seconds`: the seconds component, which takes the sign of the
      whole span (the remainder truncates toward zero). */
  function SecondsPart(secs: int): (r: int)
    ensures -60 < r < 60
    ensures secs >= 0 ==> r == secs % 60
    ensures secs < 0 ==> r <= 0 && (r - secs) % 60 == 0
  {
    if secs >= 0 then secs % 60 else -((-secs) % 60)
  }

  /** `FormatDuration` (a minute is 60 seconds, an hour 3600, a day 86400):
      the two largest units, the larger one as a whole count of itself and
      the smaller one as the remainder within it. A span under a minute,
      negative ones included, shows only its seconds component. */
  function FormatDuration(secs: int): (r: string)
    ensures |r| >= 2
    ensures r[|r| - 1] == (if secs >= 86400 then 'h' else if secs >= 3600 then 'm' else 's')
    ensures secs >= 0 ==> IsDigit(r[0])
    ensures ' ' in r <==> secs >= 60
  {
    if secs >= 86400 then
      NatToString(secs / 86400) + "d " + NatToString(secs / 3600 % 24) + "h"
    else if secs >= 3600 then
      NatToString(secs / 3600) + "h " + NatToString(secs / 60 % 60) + "m"
    else if secs >= 60 then
      NatToString(secs / 60) + "m " + NatToString(secs % 60) + "s"
    else
      IntToString(SecondsPart(secs)) + "s"
  }

  /** Division by each unit, from a witness quotient and remainder. */
  lemma DivDay(a: nat, q: nat, r: nat)
    requires r < 86400 && a == q * 86400 + r
    ensures a / 86400 == q
  {
  }

  lemma DivModHour(a: nat, q: nat, r: nat)
    requires r < 3600 && a == q * 3600 + r
    ensures a / 3600 == q && a % 3600 == r
  {
  }

  lemma DivModMinute(a: nat, q: nat, r: nat)
    requires r < 60 && a == q * 60 + r
    ensures a / 60 == q && a % 60 == r
  {
  }

  lemma ModDay(a: nat, q: nat, r: nat)
    requires r < 24 && a == q * 24 + r
    ensures a % 24 == r
  {
  }

  /** A duration of `d` whole days, `h` more whole hours and `rest` more
      seconds shows as "<d>d <h>h". */
  lemma FormatDays(secs: nat, d: nat, h: nat, rest: nat)
    requires d >= 1 && h < 24 && rest < 3600 && secs == d * 86400 + h * 3600 + rest
    ensures FormatDuration(secs) == NatToString(d) + "d " + NatToString(h) + "h"
  {
    assert secs >= 86400;
    DivDay(secs, d, h * 3600 + rest);
    assert secs / 86400 == d;
    DivModHour(secs, d * 24 + h, rest);
    assert secs / 3600 == d * 24 + h;
    ModDay(d * 24 + h, d, h);
    assert secs / 3600 % 24 == h;
    var days, hours := NatToString(secs / 86400), NatToString(secs / 3600 % 24);
    assert FormatDuration(secs) == days + "d " + hours + "h";
    assert days == NatToString(d) && hours == NatToString(h);
  }

  /** Under a day: `h` whole hours, `m` more whole minutes and `rest` more
      seconds show as "<h>h <m>m". */
  lemma FormatHours(h: nat, m: nat, rest: nat)
    requires 1 <= h < 24 && m < 60 && rest < 60
    ensures FormatDuration(h * 3600 + m * 60 + rest) == NatToString(h) + "h " + NatToString(m) + "m"
  {
    var secs := h * 3600 + m * 60 + rest;
    assert 3600 <= secs < 86400;
    DivModHour(secs, h, m * 60 + rest);
    assert secs / 3600 == h;
    DivModMinute(secs, h * 60 + m, rest);
    assert secs / 60 == h * 60 + m;
    DivModMinute(h * 60 + m, h, m);
    assert secs / 60 % 60 == m;
    assert FormatDuration(secs) == NatToString(secs / 3600) + "h " + NatToString(secs / 60 % 60) + "m";
  }

  /** Under an hour: `m` whole minutes and `s` seconds show as "<m>m <s>s";
      under a minute, as "<s>s". */
  lemma FormatMinutes(m: nat, s: nat)
    requires m < 60 && s < 60
    ensures m >= 1 ==> FormatDuration(m * 60 + s) == NatToString(m) + "m " + NatToString(s) + "s"
    ensures m == 0 ==> FormatDuration(m * 60 + s) == NatToString(s) + "s"
  {
    var secs := m * 60 + s;
    assert secs < 3600;
    DivModMinute(secs, m, s);
    assert secs / 60 == m && secs % 60 == s;
    if m >= 1 {
      assert FormatDuration(secs) == NatToString(secs / 60) + "m " + NatToString(secs % 60) + "s";
    } else {
      assert FormatDuration(secs) == IntToString(SecondsPart(secs)) + "s";
      assert SecondsPart(secs) == s;
    }
  }

  /** A negative span never reaches the day, hour or minute branches: it
      shows its seconds component with a minus sign, or "0s" for a whole
      number of minutes. */
  lemma FormatNegative(secs: int)
    requires secs < 0
    ensures (-secs) % 60 == 0 ==> FormatDuration(secs) == "0s"
    ensures (-secs) % 60 != 0 ==> FormatDuration(secs) == "-" + NatToString((-secs) % 60) + "s"
  {
    var p := SecondsPart(secs);
    assert FormatDuration(secs) == IntToString(p) + "s";
    if (-secs) % 60 == 0 {
      assert p == 0;
      assert IntToString(p) == "0";
    } else {
      assert p == -((-secs) % 60) < 0;
      assert IntToString(p) == "-" + NatToString((-secs) % 60);
    }
  }

  /** A mute of minus ninety seconds shows as "-30s". */
  lemma NegativeNinetySeconds()
    ensures FormatDuration(-90) == "-30s"
  {
    FormatNegative(-90);
    assert NatToString(30) == "30" by {
      assert NatToString(3) == "3";
    }
  }

  /** One embed field. */
  datatype Field = Field(name: string, value: string)

  /** The case embed: its title, its fields in order, and its timestamp. */
  datatype CaseEmbed = CaseEmbed(title: string, fields: seq<Field>, createdAt: Time)

  datatype ViewResult = NotFound(text: string) | Shown(embed: CaseEmbed)

  function Mention(user: Id): string {
    "<@" + NatToString(user) + ">"
  }

  function CaseTitle(e: Ledger.Entry): string {
    "\U{1F4DD} Case #" + NatToString(e.caseNumber) + " - `" + e.actionType + "`"
  }

  /** The optional and fixed fields, in the order they are added. */
  function Fields(e: Ledger.Entry): (r: seq<Field>)
  {
    (if e.user.Some? then [Field("User", Mention(e.user.value))] else [])
    + [Field("Moderator:", Mention(e.moderator))]
    + (if e.duration.Some? then [Field("Duration", FormatDuration(e.duration.value))] else [])
    + (if !IsBlank(e.reason) then [Field("Reason", "```" + e.reason.value + "```")] else [])
  }

  predicate HasField(fs: seq<Field>, name: string) {
    exists i :: 0 <= i < |fs| && fs[i].name == name
  }

  /** Each optional field appears exactly when its value does, and the
      moderator always appears. */
  lemma FieldsPresence(e: Ledger.Entry)
    ensures HasField(Fields(e), "User") <==> e.user.Some?
    ensures HasField(Fields(e), "Moderator:")
    ensures HasField(Fields(e), "Duration") <==> e.duration.Some?
    ensures HasField(Fields(e), "Reason") <==> !IsBlank(e.reason)
    ensures 1 <= |Fields(e)| <= 4
  {
    var fs := Fields(e);
    var u := if e.user.Some? then 1 else 0;
    assert fs[u].name == "Moderator:";
    if e.user.Some? { assert fs[0].name == "User"; }
    if e.duration.Some? { assert fs[u + 1].name == "Duration"; }
    if !IsBlank(e.reason) { assert fs[|fs| - 1].name == "Reason"; }
  }

  /** `LogsViewCommand`: the "doesn't exist" reply when the guild has no such
      case, otherwise the rendered case. */
  function ViewLog(s: Ledger.Cases, g: Id, caseNumber: int): (r: ViewResult)
    ensures r.NotFound? <==> forall i :: 0 <= i < |s| ==> !(s[i].guild == g && s[i].caseNumber == caseNumber)
    ensures r.NotFound? ==> r.text == NotFoundText
    ensures r.Shown? ==>
              exists i :: 0 <= i < |s| && s[i].guild == g && s[i].caseNumber == caseNumber
                          && r.embed == CaseEmbed(CaseTitle(s[i]), Fields(s[i]), s[i].createdAt)
  {
    match Ledger.GetByCase(s, g, caseNumber)
    case None => NotFound(NotFoundText)
    case Some(e) => Shown(CaseEmbed(CaseTitle(e), Fields(e), e.createdAt))
  }
}
