/** Shared vocabulary of the moderation core: optional values, identifiers,
    instants, the observable effects a command or the scheduler has on the
    chat platform, and the string helpers the .NET code leans on
    (`string.IsNullOrWhiteSpace`, `StartsWith`, `string.Length`, decimal
    formatting). */
module Common {

  /** A nullable value (`T?` in the source). */
  datatype Option<+T> = None | Some(value: T) {
    function GetOr(default: T): T {
      match this
      case Some(v) => v
      case None => default
    }
  }

  /** A platform snowflake (guild, user, channel, role or message id). */
  type Id = nat

  /** An instant, in whole seconds since the UTC epoch. */
  type Time = int

  /** What the core does to the outside world, in the order it does it. */
  datatype Effect =
    | Reply(text: string)                          // a response to the invoking user
    | DirectMessage(user: Id, text: string)        // a DM; `text` is its content or the optional reason line
    | PostToChannel(channel: Id)                   // an audit embed posted to a channel
    | Recorded(guild: Id, caseNumber: nat)          // a case appended to the ledger
    | RemoveMember(guild: Id, user: Id)             // the member is kicked
    | DeleteMessages(channel: Id, messages: seq<Id>)
    | DeleteResponse                               // the command's own response is deleted

  /** `char.IsWhiteSpace`: the Unicode White_Space characters as .NET lists them. */
  predicate IsWhiteSpace(c: char) {
    || ('\U{0009}' <= c <= '\U{000D}')
    || c == '\U{0020}'
    || c == '\U{0085}'
    || c == '\U{00A0}'
    || c == '\U{1680}'
    || ('\U{2000}' <= c <= '\U{200A}')
    || c == '\U{2028}'
    || c == '\U{2029}'
    || c == '\U{202F}'
    || c == '\U{205F}'
    || c == '\U{3000}'
  }

  /** `string.IsNullOrWhiteSpace`. */
  predicate IsBlank(s: Option<string>) {
    s.None? || forall i :: 0 <= i < |s.value| ==> IsWhiteSpace(s.value[i])
  }

  /** Ordinal `StartsWith`. */
  predicate StartsWith(s: string, p: string) {
    |p| <= |s| && s[..|p|] == p
  }

  predicate IsDigit(c: char) {
    '0' <= c <= '9'
  }

  function DigitValue(c: char): (d: nat)
    requires IsDigit(c)
    ensures d < 10
  {
    (c as int - '0' as int) as nat
  }

  function DigitChar(d: nat): (c: char)
    requires d < 10
    ensures IsDigit(c)
    ensures DigitValue(c) == d
  {
    "0123456789"[d]
  }

  /** Decimal rendering of a natural number, as `int.ToString()` and string
      interpolation print it: at least one digit, no leading zero. */
  function NatToString(n: nat): (s: string)
    ensures |s| >= 1
    ensures forall i :: 0 <= i < |s| ==> IsDigit(s[i])
    ensures s[0] == '0' ==> n == 0
    decreases n
  {
    if n < 10 then [DigitChar(n)] else NatToString(n / 10) + [DigitChar(n % 10)]
  }

  /** Decimal rendering of an integer: a minus sign, then the digits of its
      magnitude, for a negative one. */
  function IntToString(i: int): (s: string)
    ensures |s| >= 1
    ensures s[0] == '-' <==> i < 0
    ensures forall k :: 0 < k < |s| ==> IsDigit(s[k])
  {
    if i < 0 then "-" + NatToString(-i) else NatToString(i)
  }

  /** Different integers render differently. */
  lemma IntToStringInjective(i: int, j: int)
    requires IntToString(i) == IntToString(j)
    ensures i == j
  {
    var s := IntToString(i);
    if i < 0 {
      assert s[1..] == NatToString(-i) && s[1..] == NatToString(-j);
      NatToStringInjective(-i, -j);
    } else {
      NatToStringInjective(i, j);
    }
  }

  const Int32Min: int := -0x8000_0000
  const Int32Max: int := 0x7FFF_FFFF

  /** C#'s unchecked `int` arithmetic: the exact value wrapped into
      `[int.MinValue, int.MaxValue]`, keeping it modulo 2^32. */
  function Wrap32(x: int): (r: int)
    ensures Int32Min <= r <= Int32Max
    ensures Int32Min <= x <= Int32Max ==> r == x
    decreases if x > Int32Max then x - Int32Max else if x < Int32Min then Int32Min - x else 0
  {
    if x > Int32Max then Wrap32(x - 0x1_0000_0000)
    else if x < Int32Min then Wrap32(x + 0x1_0000_0000)
    else x
  }

  /** Wrapping keeps the value modulo 2^32. */
  lemma {:induction false} Wrap32Congruent(x: int)
    ensures (x - Wrap32(x)) % 0x1_0000_0000 == 0
    decreases if x > Int32Max then x - Int32Max else if x < Int32Min then Int32Min - x else 0
  {
    if x > Int32Max {
      Wrap32Congruent(x - 0x1_0000_0000);
    } else if x < Int32Min {
      Wrap32Congruent(x + 0x1_0000_0000);
    }
  }

  /** The UTF-16 code units a character takes: two (a surrogate pair) above
      the Basic Multilingual Plane, one otherwise. */
  function Utf16Units(c: char): nat {
    if c as int > 0xFFFF then 2 else 1
  }

  /** `string.Length`: .NET strings count UTF-16 code units, not characters. */
  function Utf16Length(s: string): (n: nat)
    ensures |s| <= n <= 2 * |s|
  {
    if |s| == 0 then 0 else Utf16Units(s[0]) + Utf16Length(s[1..])
  }

  /** The code-unit count equals the character count exactly when no
      character lies above the Basic Multilingual Plane. */
  lemma {:induction false} Utf16LengthIsLength(s: string)
    ensures Utf16Length(s) == |s| <==> forall i :: 0 <= i < |s| ==> s[i] as int <= 0xFFFF
  {
    if |s| > 0 {
      Utf16LengthIsLength(s[1..]);
      assert forall i :: 1 <= i < |s| ==> s[i] == s[1..][i - 1];
      assert forall i :: 0 <= i < |s| - 1 ==> s[1..][i] == s[i + 1];
    }
  }

  /** Reads a string of decimal digits back as a number (the inverse of `NatToString`). */
  function ParseDecimal(s: string): nat
    requires forall i :: 0 <= i < |s| ==> IsDigit(s[i])
  {
    if |s| == 0 then 0
    else ParseDecimal(s[..|s| - 1]) * 10 + DigitValue(s[|s| - 1])
  }

  /** Rendering then reading a number gives the number back. */
  lemma {:induction false} ParseNatToString(n: nat)
    ensures ParseDecimal(NatToString(n)) == n
    decreases n
  {
    var s := NatToString(n);
    if n >= 10 {
      var t := NatToString(n / 10);
      assert s[..|s| - 1] == t;
      ParseNatToString(n / 10);
    }
  }

  /** Different numbers render differently. */
  lemma NatToStringInjective(m: nat, n: nat)
    requires NatToString(m) == NatToString(n)
    ensures m == n
  {
    ParseNatToString(m);
    ParseNatToString(n);
  }
}
