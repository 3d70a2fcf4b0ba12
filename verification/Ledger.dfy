/** The moderation case ledger (`ModerationLogService`): an append-only table
    of `ModeratorLogs` rows, numbered per guild, with filtered and paginated
    retrieval and lookup by (guild, case number).

    The table is a sequence in insertion order. Appends are sequential: the
    service's read-max-then-insert is not guarded against a concurrent writer,
    and a sequential model cannot exhibit that race. */
module Ledger {
  import opened Common
  import Settings

  /** `ModerationType`; the ledger stores the member's name as its action type. */
  datatype ModerationType = Ban | TempBan | Unban | Mute | TempMute | Unmute | Kick | Purge {
    function Name(): string {
      match this
      case Ban => "ban"
      case TempBan => "tempBan"
      case Unban => "unban"
      case Mute => "mute"
      case TempMute => "tempMute"
      case Unmute => "unmute"
      case Kick => "kick"
      case Purge => "purge"
    }
  }

  /** One `ModeratorLogs` row. `duration` is a `TimeSpan` in whole seconds
      (the caller's value, so it may be negative) and absent for a permanent
      action; `user` is absent for actions with no single subject. */
  datatype Entry = Entry(
    guild: Id,
    user: Option<Id>,
    moderator: Id,
    actionType: string,
    reason: Option<string>,
    duration: Option<int>,
    createdAt: Time,
    expiresAt: Option<Time>,
    context: Option<string>,
    caseNumber: nat)

  /** The arguments of `LogModeratorActionAsync` that end up in the row. */
  datatype Request = Request(
    guild: Id,
    user: Option<Id>,
    moderator: Id,
    actionType: string,
    reason: Option<string>,
    duration: Option<int>,
    context: Option<string>,
    expiresAt: Option<Time>)

  /** `ModeratorLogsDTO`: what a query hands back for each row. */
  datatype Summary = Summary(
    user: Option<Id>,
    moderator: Id,
    actionType: string,
    reason: Option<string>,
    createdAt: Time,
    caseNumber: nat)

  type Cases = seq<Entry>

  /** The row carries the request's fields unchanged. */
  predicate Carries(e: Entry, req: Request) {
    && e.guild == req.guild
    && e.user == req.user
    && e.moderator == req.moderator
    && e.actionType == req.actionType
    && e.reason == req.reason
    && e.duration == req.duration
    && e.context == req.context
    && e.expiresAt == req.expiresAt
  }

  // ---------------------------------------------------------------------------
  // Case numbering
  // ---------------------------------------------------------------------------

  /** Number of rows belonging to guild `g`. */
  function CountIn(s: Cases, g: Id): (n: nat)
    ensures n <= |s|
  {
    if |s| == 0 then 0
    else CountIn(s[..|s| - 1], g) + (if s[|s| - 1].guild == g then 1 else 0)
  }

  /** The guild's highest case number, or 0 when it has no rows (the
      `FirstOrDefault` of the descending case numbers). */
  function LastCase(s: Cases, g: Id): (n: nat)
    ensures forall i :: 0 <= i < |s| && s[i].guild == g ==> s[i].caseNumber <= n
    ensures n == 0 || exists i :: 0 <= i < |s| && s[i].guild == g && s[i].caseNumber == n
  {
    if |s| == 0 then 0
    else
      var m := LastCase(s[..|s| - 1], g);
      var e := s[|s| - 1];
      if e.guild == g && e.caseNumber > m then e.caseNumber else m
  }

  /** The row `LogModeratorActionAsync` builds, before its case number is known. */
  function NewEntry(req: Request, now: Time, caseNumber: nat): Entry {
    Entry(req.guild, req.user, req.moderator, req.actionType, req.reason,
          req.duration, now, req.expiresAt, req.context, caseNumber)
  }

  /** The insert of `LogModeratorActionAsync`: one new row, carrying the
      request, created now, numbered one past the guild's highest case. */
  function Append(s: Cases, req: Request, now: Time): (r: Cases)
    ensures |r| == |s| + 1 && r[..|s|] == s
    ensures Carries(r[|s|], req) && r[|s|].createdAt == now
    ensures forall i :: 0 <= i < |s| && s[i].guild == req.guild ==> s[i].caseNumber < r[|s|].caseNumber
    ensures r[|s|].caseNumber == 1
            || exists i :: 0 <= i < |s| && s[i].guild == req.guild && s[i].caseNumber + 1 == r[|s|].caseNumber
    ensures (forall i :: 0 <= i < |s| ==> s[i].guild != req.guild) ==> r[|s|].caseNumber == 1
    ensures forall h :: h != req.guild ==> LastCase(r, h) == LastCase(s, h) && CountIn(r, h) == CountIn(s, h)
  {
    var r := s + [NewEntry(req, now, LastCase(s, req.guild) + 1)];
    assert r[..|r| - 1] == s;
    r
  }

  /** `SendEmbedToLogsChannel`: post to the guild's audit channel, or do
      nothing when none is configured. */
  function NotifyLogChannel(st: Settings.Store, g: Id): (e: seq<Effect>)
    ensures |e| <= 1
    ensures e == [] <==> Settings.GetLogChannel(st, g).None?
    ensures forall c :: Settings.GetLogChannel(st, g) == Some(c) ==> e == [PostToChannel(c)]
  {
    match Settings.GetLogChannel(st, g)
    case None => []
    case Some(c) => [PostToChannel(c)]
  }

  /** `LogModeratorActionAsync`: append the row, then post the embed (when
      one is given) to the audit channel. */
  function LogModeratorAction(s: Cases, st: Settings.Store, req: Request, hasEmbed: bool, now: Time): (r: (Cases, seq<Effect>))
    ensures r.0 == Append(s, req, now)
    ensures |r.1| >= 1 && r.1[0] == Recorded(req.guild, r.0[|s|].caseNumber)
    ensures !hasEmbed ==> |r.1| == 1
    ensures hasEmbed && Settings.GetLogChannel(st, req.guild).None? ==> |r.1| == 1
    ensures forall c :: hasEmbed && Settings.GetLogChannel(st, req.guild) == Some(c) ==> r.1 == [r.1[0], PostToChannel(c)]
  {
    var s' := Append(s, req, now);
    (s', [Recorded(req.guild, s'[|s|].caseNumber)] + (if hasEmbed then NotifyLogChannel(st, req.guild) else []))
  }

  /** Every row's case number is one more than the number of earlier rows of
      its guild: the guild's numbers run 1, 2, 3, … in insertion order. */
  ghost predicate Numbered(s: Cases) {
    forall i {:trigger CaseAt(s, i)} :: 0 <= i < |s| ==> CaseAt(s, i) == CountIn(s[..i], s[i].guild) + 1
  }

  /** The case number of row `i`; the term that brings `Numbered` into play. */
  ghost function CaseAt(s: Cases, i: nat): nat
    requires i < |s|
  {
    s[i].caseNumber
  }

  lemma NumberedPrefix(s: Cases, k: nat)
    requires Numbered(s) && k <= |s|
    ensures Numbered(s[..k])
  {
    forall i | 0 <= i < k
      ensures CaseAt(s[..k], i) == CountIn(s[..k][..i], s[..k][i].guild) + 1
    {
      assert s[..k][..i] == s[..i] && CaseAt(s, i) == CaseAt(s[..k], i);
    }
  }

  /** In a numbered ledger the highest case number of a guild is its row count. */
  lemma {:induction false} NumberedLastCase(s: Cases, g: Id)
    requires Numbered(s)
    ensures LastCase(s, g) == CountIn(s, g)
    decreases |s|
  {
    if |s| > 0 {
      var t := s[..|s| - 1];
      assert CaseAt(s, |s| - 1) == CountIn(t, s[|s| - 1].guild) + 1;
      NumberedPrefix(s, |s| - 1);
      NumberedLastCase(t, g);
    }
  }

  /** Appending keeps the ledger numbered. */
  lemma AppendNumbered(s: Cases, req: Request, now: Time)
    requires Numbered(s)
    ensures Numbered(Append(s, req, now))
  {
    var r := Append(s, req, now);
    NumberedLastCase(s, req.guild);
    forall i | 0 <= i < |r|
      ensures CaseAt(r, i) == CountIn(r[..i], r[i].guild) + 1
    {
      if i < |s| {
        assert r[..i] == s[..i] && CaseAt(s, i) == CaseAt(r, i);
      } else {
        assert r[..i] == s;
      }
    }
  }

  lemma {:induction false} CountMonotone(s: Cases, i: nat, j: nat, g: Id)
    requires i <= j <= |s|
    ensures CountIn(s[..i], g) <= CountIn(s[..j], g)
    decreases j - i
  {
    if i < j {
      CountMonotone(s, i, j - 1, g);
      assert s[..j][..j - 1] == s[..j - 1];
    }
  }

  /** Within a guild, later rows have strictly larger case numbers: no two
      rows of one guild share a number. */
  lemma NumberedIncreasing(s: Cases, i: nat, j: nat)
    requires Numbered(s) && i < j < |s| && s[i].guild == s[j].guild
    ensures s[i].caseNumber < s[j].caseNumber
  {
    var g := s[i].guild;
    assert CaseAt(s, i) == CountIn(s[..i], g) + 1 && CaseAt(s, j) == CountIn(s[..j], g) + 1;
    assert s[..i + 1][..i] == s[..i];
    CountMonotone(s, i + 1, j, g);
  }

  /** The case numbers in use by guild `g`. */
  function CaseNumbersOf(s: Cases, g: Id): set<nat> {
    set i | 0 <= i < |s| && s[i].guild == g :: s[i].caseNumber
  }

  /** `{1..n}`. */
  function UpTo(n: nat): (r: set<nat>)
    ensures forall k :: k in r <==> 1 <= k <= n
  {
    if n == 0 then {} else UpTo(n - 1) + {n}
  }

  /** Guild `g` has a row numbered `x`. */
  predicate HasCase(s: Cases, g: Id, x: nat) {
    exists i :: 0 <= i < |s| && s[i].guild == g && s[i].caseNumber == x
  }

  /** A row numbered `x` in `t + [e]` is one of `t`'s or is `e`. */
  lemma HasCaseSnoc(t: Cases, e: Entry, g: Id, x: nat)
    ensures HasCase(t + [e], g, x) <==> HasCase(t, g, x) || (e.guild == g && e.caseNumber == x)
  {
    var s := t + [e];
    if HasCase(s, g, x) {
      var i :| 0 <= i < |s| && s[i].guild == g && s[i].caseNumber == x;
      if i < |t| {
        assert t[i] == s[i];
      }
    }
    if HasCase(t, g, x) {
      var i :| 0 <= i < |t| && t[i].guild == g && t[i].caseNumber == x;
      assert s[i] == t[i];
    }
    assert s[|t|] == e;
  }

  /** In a numbered ledger guild `g` has a row numbered `x` exactly when
      `1 <= x <= N`, with N its row count. */
  lemma {:induction false} NumberedHasCase(s: Cases, g: Id, x: nat)
    requires Numbered(s)
    ensures HasCase(s, g, x) <==> 1 <= x <= CountIn(s, g)
    decreases |s|
  {
    if |s| > 0 {
      var t := s[..|s| - 1];
      var e := s[|s| - 1];
      assert CaseAt(s, |s| - 1) == CountIn(t, e.guild) + 1;
      assert HasCase(t, g, x) <==> 1 <= x <= CountIn(t, g) by {
        NumberedPrefix(s, |s| - 1);
        NumberedHasCase(t, g, x);
      }
      assert HasCase(s, g, x) <==> HasCase(t, g, x) || (e.guild == g && e.caseNumber == x) by {
        assert s == t + [e];
        HasCaseSnoc(t, e, g, x);
      }
    }
  }

  /** In a numbered ledger a guild with N rows uses exactly the numbers 1..N. */
  lemma NumberedCaseSet(s: Cases, g: Id)
    requires Numbered(s)
    ensures CaseNumbersOf(s, g) == UpTo(CountIn(s, g))
  {
    forall x: nat
      ensures x in CaseNumbersOf(s, g) <==> x in UpTo(CountIn(s, g))
    {
      NumberedHasCase(s, g, x);
      if x in CaseNumbersOf(s, g) {
        var i :| 0 <= i < |s| && s[i].guild == g && s[i].caseNumber == x;
        assert HasCase(s, g, x);
      }
    }
  }

  /** The ledger after a run of sequential `LogModeratorActionAsync` inserts,
      starting from an empty table. */
  function Replay(reqs: seq<(Request, Time)>): (s: Cases)
    ensures |s| == |reqs|
  {
    if |reqs| == 0 then []
    else Append(Replay(reqs[..|reqs| - 1]), reqs[|reqs| - 1].0, reqs[|reqs| - 1].1)
  }

  /** Sequential inserts into an empty table leave it numbered. */
  lemma {:induction false} ReplayNumbered(reqs: seq<(Request, Time)>)
    ensures Numbered(Replay(reqs))
    decreases |reqs|
  {
    if |reqs| > 0 {
      var prev := reqs[..|reqs| - 1];
      ReplayNumbered(prev);
      AppendNumbered(Replay(prev), reqs[|reqs| - 1].0, reqs[|reqs| - 1].1);
    }
  }

  /** Sequential appends keep every guild's case numbers exactly {1..N}, with
      N its row count, and never give two rows of one guild the same number. */
  lemma {:induction false} SequentialAppendsContiguous(reqs: seq<(Request, Time)>, g: Id)
    ensures CaseNumbersOf(Replay(reqs), g) == UpTo(CountIn(Replay(reqs), g))
    ensures forall i, j :: 0 <= i < j < |Replay(reqs)| && Replay(reqs)[i].guild == Replay(reqs)[j].guild
              ==> Replay(reqs)[i].caseNumber != Replay(reqs)[j].caseNumber
  {
    ReplayNumbered(reqs);
    NumberedCaseSet(Replay(reqs), g);
    NumberedDistinct(Replay(reqs));
  }

  /** In a numbered ledger no two rows of one guild share a case number. */
  lemma NumberedDistinct(s: Cases)
    requires Numbered(s)
    ensures forall i, j :: 0 <= i < j < |s| && s[i].guild == s[j].guild ==> s[i].caseNumber != s[j].caseNumber
  {
    forall i, j | 0 <= i < j < |s| && s[i].guild == s[j].guild
      ensures s[i].caseNumber != s[j].caseNumber
    {
      NumberedIncreasing(s, i, j);
    }
  }

  // ---------------------------------------------------------------------------
  // Point lookup
  // ---------------------------------------------------------------------------

  /** `GetModerationLogByCaseNumberAsync`: the row of guild `g` numbered `n`,
      or none. */
  function GetByCase(s: Cases, g: Id, n: int): (r: Option<Entry>)
    ensures r.Some? ==> r.value in s && r.value.guild == g && r.value.caseNumber == n
    ensures r.None? <==> forall i :: 0 <= i < |s| ==> !(s[i].guild == g && s[i].caseNumber == n)
  {
    if |s| == 0 then None
    else if s[0].guild == g && s[0].caseNumber == n then Some(s[0])
    else GetByCase(s[1..], g, n)
  }

  /** In a numbered ledger the lookup finds THE row with that number. */
  lemma GetByCaseUnique(s: Cases, g: Id, n: int, i: nat)
    requires Numbered(s)
    requires i < |s| && s[i].guild == g && s[i].caseNumber == n
    ensures GetByCase(s, g, n) == Some(s[i])
  {
    var r := GetByCase(s, g, n);
    var j :| 0 <= j < |s| && s[j] == r.value;
    if i < j {
      NumberedIncreasing(s, i, j);
    } else if j < i {
      NumberedIncreasing(s, j, i);
    }
  }

  /** An appended row can be looked up by its guild and new case number. */
  lemma LookupAfterAppend(s: Cases, req: Request, now: Time)
    ensures var r := Append(s, req, now);
            GetByCase(r, req.guild, r[|s|].caseNumber) == Some(r[|s|])
  {
    var r := Append(s, req, now);
    var found := GetByCase(r, req.guild, r[|s|].caseNumber);
    var j :| 0 <= j < |r| && r[j] == found.value;
    if j < |s| {
      assert false;
    }
  }

  // ---------------------------------------------------------------------------
  // Filtered, ordered, paginated retrieval
  // ---------------------------------------------------------------------------

  /** The optional filters of `GetModeratorLogsAsync`; times are UTC. */
  datatype Filters = Filters(
    guild: Option<Id>,
    user: Option<Id>,
    moderator: Option<Id>,
    actionType: Option<string>,
    caseNumber: Option<int>,
    createdAfter: Option<Time>,
    createdBefore: Option<Time>)

  const NoFilters: Filters := Filters(None, None, None, None, None, None, None)

  /** A row passes every filter that is given. A blank action type is no
      filter; a user filter never matches a row without a subject; both
      creation bounds are inclusive. */
  function Matches(f: Filters, e: Entry): (b: bool)
    ensures f == NoFilters ==> b
    ensures f.createdAfter.Some? && f.createdBefore.Some? && f.createdBefore.value < f.createdAfter.value ==> !b
  {
    && (f.guild.Some? ==> e.guild == f.guild.value)
    && (f.user.Some? ==> e.user == Some(f.user.value))
    && (f.moderator.Some? ==> e.moderator == f.moderator.value)
    && (!IsBlank(f.actionType) ==> e.actionType == f.actionType.value)
    && (f.caseNumber.Some? ==> e.caseNumber == f.caseNumber.value)
    && (f.createdAfter.Some? ==> e.createdAt >= f.createdAfter.value)
    && (f.createdBefore.Some? ==> e.createdAt <= f.createdBefore.value)
  }

  /** The `Where` chain: the matching rows, in table order. */
  function Select(s: Cases, f: Filters): (r: Cases)
    ensures |r| <= |s|
    ensures forall i :: 0 <= i < |r| ==> Matches(f, r[i])
    ensures forall e :: e in r <==> e in s && Matches(f, e)
  {
    if |s| == 0 then []
    else if Matches(f, s[0]) then [s[0]] + Select(s[1..], f)
    else Select(s[1..], f)
  }

  /** The selection keeps each matching row as many times as the ledger
      holds it, and no other row. */
  lemma {:induction false} SelectCounts(s: Cases, f: Filters)
    ensures forall e :: multiset(Select(s, f))[e] == if Matches(f, e) then multiset(s)[e] else 0
  {
    if |s| > 0 {
      SelectCounts(s[1..], f);
      assert s == [s[0]] + s[1..];
    }
  }

  predicate NonIncreasing(xs: Cases) {
    forall i, j :: 0 <= i < j < |xs| ==> xs[i].caseNumber >= xs[j].caseNumber
  }

  predicate StrictlyDecreasing(xs: Cases) {
    forall i, j :: 0 <= i < j < |xs| ==> xs[i].caseNumber > xs[j].caseNumber
  }

  /** Insert `x` into a list ordered by case number descending, ahead of the
      rows it ties with. */
  function Insert(x: Entry, ys: Cases): (r: Cases)
    requires NonIncreasing(ys)
    ensures |r| == |ys| + 1
    ensures multiset(r) == multiset(ys) + multiset{x}
    ensures r[0] == x || (|ys| > 0 && r[0] == ys[0])
    ensures NonIncreasing(r)
  {
    if |ys| == 0 || ys[0].caseNumber <= x.caseNumber then
      ConsNonIncreasing(x, ys);
      [x] + ys
    else
      assert NonIncreasing(ys[1..]);
      var rest := Insert(x, ys[1..]);
      assert ys == [ys[0]] + ys[1..];
      ConsNonIncreasing(ys[0], rest);
      [ys[0]] + rest
  }

  /** An element no smaller than the head of an ordered list extends it. */
  lemma ConsNonIncreasing(y: Entry, xs: Cases)
    requires NonIncreasing(xs)
    requires |xs| > 0 ==> y.caseNumber >= xs[0].caseNumber
    ensures NonIncreasing([y] + xs)
  {
    var r := [y] + xs;
    forall i, j | 0 <= i < j < |r|
      ensures r[i].caseNumber >= r[j].caseNumber
    {
      if i == 0 {
        assert r[j] == xs[j - 1];
      } else {
        assert r[i] == xs[i - 1] && r[j] == xs[j - 1];
      }
    }
  }

  /** `OrderByDescending(CaseNumber)`: a stable sort, newest case first. */
  function SortDesc(xs: Cases): (r: Cases)
    ensures |r| == |xs|
    ensures multiset(r) == multiset(xs)
    ensures NonIncreasing(r)
  {
    if |xs| == 0 then []
    else
      assert xs == [xs[0]] + xs[1..];
      Insert(xs[0], SortDesc(xs[1..]))
  }

  lemma {:induction false} InsertStrict(x: Entry, ys: Cases)
    requires StrictlyDecreasing(ys)
    requires forall y :: y in ys ==> y.caseNumber != x.caseNumber
    ensures StrictlyDecreasing(Insert(x, ys))
    decreases |ys|
  {
    if |ys| > 0 && ys[0].caseNumber > x.caseNumber {
      InsertStrict(x, ys[1..]);
    }
  }

  /** Sorting rows with pairwise distinct case numbers yields a strictly
      decreasing list. */
  lemma {:induction false} SortDescStrict(xs: Cases)
    requires forall i, j :: 0 <= i < j < |xs| ==> xs[i].caseNumber != xs[j].caseNumber
    ensures StrictlyDecreasing(SortDesc(xs))
    decreases |xs|
  {
    if |xs| > 0 {
      var rest := SortDesc(xs[1..]);
      SortDescStrict(xs[1..]);
      forall y | y in rest
        ensures y.caseNumber != xs[0].caseNumber
      {
        assert y in multiset(rest);
        assert y in xs[1..];
      }
      InsertStrict(xs[0], rest);
    }
  }

  /** LINQ `Skip`: a non-positive count skips nothing. */
  function Skip(xs: Cases, n: int): (r: Cases)
    ensures n <= 0 ==> r == xs
    ensures n >= |xs| ==> r == []
    ensures 0 < n < |xs| ==> r == xs[n..]
  {
    if n <= 0 then xs else if n >= |xs| then [] else xs[n..]
  }

  /** LINQ `Take`: a non-positive count takes nothing. */
  function Take(xs: Cases, n: int): (r: Cases)
    ensures n <= 0 ==> r == []
    ensures n >= |xs| ==> r == xs
    ensures 0 < n < |xs| ==> r == xs[..n]
  {
    if n <= 0 then [] else if n >= |xs| then xs else xs[..n]
  }

  function Max0(n: int): nat {
    if n < 0 then 0 else n
  }

  function Min(a: int, b: int): int {
    if a < b then a else b
  }

  /** `Skip(skip).Take(take)`: at most `take` items, the ones at positions
      `skip`, `skip + 1`, … of `xs` (negative counts read as zero). */
  function Window(xs: Cases, skip: int, take: int): (r: Cases)
    ensures |r| == Min(Max0(take), Max0(|xs| - Max0(skip)))
    ensures forall k :: 0 <= k < |r| ==> r[k] == xs[Max0(skip) + k]
  {
    Take(Skip(xs, skip), take)
  }

  /** Sorting keeps exactly the same rows. */
  lemma SortDescMembers(xs: Cases)
    ensures forall e :: e in SortDesc(xs) <==> e in xs
  {
    forall e
      ensures e in SortDesc(xs) <==> e in xs
    {
      assert e in SortDesc(xs) <==> e in multiset(SortDesc(xs));
      assert e in xs <==> e in multiset(xs);
    }
  }

  /** All matches, newest case first: the list that pages are cut from. */
  function Ranked(s: Cases, f: Filters): (r: Cases)
    ensures NonIncreasing(r)
  {
    SortDesc(Select(s, f))
  }

  /** The ranked list is a permutation of the matching rows of the ledger. */
  lemma RankedPermutation(s: Cases, f: Filters)
    ensures forall e :: multiset(Ranked(s, f))[e] == if Matches(f, e) then multiset(s)[e] else 0
  {
    SelectCounts(s, f);
  }

  /** The ranked list holds exactly the matching rows of the ledger. */
  lemma RankedMembers(s: Cases, f: Filters)
    ensures forall e :: e in Ranked(s, f) <==> e in s && Matches(f, e)
  {
    SortDescMembers(Select(s, f));
  }

  /** The rows `Skip((page - 1) * pageSize)` passes over. `page` and
      `pageSize` are C# `int`s, so the product wraps around at 2^32; LINQ
      then reads a negative count as zero. */
  function Skipped(page: int, pageSize: int): (n: nat)
    ensures n <= Int32Max
    ensures page == 1 ==> n == 0
  {
    Max0(Wrap32(Mul(page - 1, pageSize)))
  }

  /** `a * b`, unfolded one step of `a` at a time. */
  function Mul(a: int, b: int): int
    decreases if a < 0 then -a else a
  {
    if a == 0 then 0 else if a > 0 then Mul(a - 1, b) + b else Mul(a + 1, b) - b
  }

  lemma {:induction false} MulIsProduct(a: int, b: int)
    ensures Mul(a, b) == a * b
    decreases if a < 0 then -a else a
  {
    if a > 0 {
      MulIsProduct(a - 1, b);
    } else if a < 0 {
      MulIsProduct(a + 1, b);
    }
  }

  /** While the product fits in an `int`, the page skips `(page - 1) *
      pageSize` rows, and nothing at all for the first page. */
  lemma SkippedIsOffset(page: int, pageSize: int)
    requires Int32Min <= (page - 1) * pageSize <= Int32Max
    ensures Skipped(page, pageSize) == Max0((page - 1) * pageSize)
    ensures pageSize > 0 ==> (Skipped(page, pageSize) == 0 <==> page <= 1)
  {
    MulIsProduct(page - 1, pageSize);
    if pageSize > 0 && page > 1 {
      assert (page - 1) * pageSize >= pageSize;
    } else if pageSize > 0 {
      assert (page - 1) * pageSize <= 0;
    }
  }

  /** Past the end of the `int` range the offset wraps: page 1073741825 of
      size 4 would start at row 2^32, which wraps to 0, so it is the first
      page again. */
  lemma OverflowingPageRepeatsFirst(xs: Cases)
    ensures PageOf(xs, 1_073_741_825, 4) == PageOf(xs, 1, 4)
  {
    MulIsProduct(1_073_741_824, 4);
    assert Wrap32(0x1_0000_0000) == Wrap32(0) == 0;
    assert Skipped(1_073_741_825, 4) == 0 == Skipped(1, 4);
  }

  /** So the query shows its first page for page 1073741825 of size 4. */
  lemma OverflowingPageShowsFirstPage(s: Cases, f: Filters)
    ensures QueryEntries(s, f, 1_073_741_825, 4) == QueryEntries(s, f, 1, 4)
  {
    OverflowingPageRepeatsFirst(Ranked(s, f));
  }

  /** The rows behind `GetModeratorLogsAsync`: filter, order by case number
      descending, skip `(page - 1) * pageSize`, take `pageSize`. The page is
      the run of ranked matches starting at rank `Skipped(page, pageSize)`. */
  function QueryEntries(s: Cases, f: Filters, page: int, pageSize: int): (r: Cases)
    ensures |r| <= Max0(pageSize)
    ensures |r| == Min(Max0(pageSize), Max0(|Ranked(s, f)| - Skipped(page, pageSize)))
    ensures forall k :: 0 <= k < |r| ==> r[k] == Ranked(s, f)[Skipped(page, pageSize) + k]
  {
    PageOf(Ranked(s, f), page, pageSize)
  }

  /** Page `page` of `pageSize` rows cut from `xs`. */
  function PageOf(xs: Cases, page: int, pageSize: int): (r: Cases)
    ensures |r| == Min(Max0(pageSize), Max0(|xs| - Skipped(page, pageSize)))
    ensures forall k :: 0 <= k < |r| ==> r[k] == xs[Skipped(page, pageSize) + k]
  {
    var skip := Skipped(page, pageSize);
    assert Max0(skip) == skip;
    Window(xs, skip, pageSize)
  }

  /** Every row of a page is a ledger row that passes every given filter. */
  lemma QueryEntriesMatch(s: Cases, f: Filters, page: int, pageSize: int)
    ensures forall i :: 0 <= i < |QueryEntries(s, f, page, pageSize)| ==>
              QueryEntries(s, f, page, pageSize)[i] in s && Matches(f, QueryEntries(s, f, page, pageSize)[i])
  {
    var r := QueryEntries(s, f, page, pageSize);
    var ranked := Ranked(s, f);
    RankedMembers(s, f);
    forall i | 0 <= i < |r|
      ensures r[i] in s && Matches(f, r[i])
    {
      assert r[i] == ranked[Skipped(page, pageSize) + i];
      assert r[i] in ranked;
    }
  }

  /** A page lists case numbers in non-increasing order. */
  lemma QueryEntriesOrdered(s: Cases, f: Filters, page: int, pageSize: int)
    ensures NonIncreasing(QueryEntries(s, f, page, pageSize))
  {
    WindowOrdered(Ranked(s, f), Skipped(page, pageSize), pageSize);
  }

  /** A window of a list ordered newest-first is ordered newest-first. */
  lemma WindowOrdered(xs: Cases, skip: int, take: int)
    requires NonIncreasing(xs)
    ensures NonIncreasing(Window(xs, skip, take))
  {
    var r := Window(xs, skip, take);
    forall i, j | 0 <= i < j < |r|
      ensures r[i].caseNumber >= r[j].caseNumber
    {
      assert r[i] == xs[Max0(skip) + i] && r[j] == xs[Max0(skip) + j];
    }
  }

  function Summarize(e: Entry): Summary {
    Summary(e.user, e.moderator, e.actionType, e.reason, e.createdAt, e.caseNumber)
  }

  /** `GetModeratorLogsAsync`: the page of matching rows, projected to
      `ModeratorLogsDTO`. */
  function Query(s: Cases, f: Filters, page: int, pageSize: int): (r: seq<Summary>)
    ensures |r| == Min(Max0(pageSize), Max0(|Ranked(s, f)| - Skipped(page, pageSize)))
    ensures forall k :: 0 <= k < |r| ==> r[k] == Summarize(Ranked(s, f)[Skipped(page, pageSize) + k])
    ensures |r| <= Max0(pageSize)
    ensures forall k :: 0 <= k < |r| ==>
              && (f.user.Some? ==> r[k].user == f.user)
              && (f.moderator.Some? ==> r[k].moderator == f.moderator.value)
              && (!IsBlank(f.actionType) ==> r[k].actionType == f.actionType.value)
              && (f.caseNumber.Some? ==> r[k].caseNumber == f.caseNumber.value)
              && (f.createdAfter.Some? ==> r[k].createdAt >= f.createdAfter.value)
              && (f.createdBefore.Some? ==> r[k].createdAt <= f.createdBefore.value)
    ensures forall i, j :: 0 <= i < j < |r| ==> r[i].caseNumber >= r[j].caseNumber
  {
    var rows := QueryEntries(s, f, page, pageSize);
    QueryEntriesMatch(s, f, page, pageSize);
    QueryEntriesOrdered(s, f, page, pageSize);
    seq(|rows|, k requires 0 <= k < |rows| => Summarize(rows[k]))
  }

  /** With no filters every row matches; a blank action type filters nothing. */
  lemma AbsentFiltersRestrictNothing(f: Filters, e: Entry)
    ensures Matches(NoFilters, e)
    ensures IsBlank(f.actionType) ==> (Matches(f, e) <==> Matches(f.(actionType := None), e))
  {
  }

  /** Filters combine: a row matches iff it passes each given filter on its own. */
  lemma FiltersConjoin(f: Filters, e: Entry)
    ensures Matches(f, e) <==>
      && Matches(NoFilters.(guild := f.guild), e)
      && Matches(NoFilters.(user := f.user), e)
      && Matches(NoFilters.(moderator := f.moderator), e)
      && Matches(NoFilters.(actionType := f.actionType), e)
      && Matches(NoFilters.(caseNumber := f.caseNumber), e)
      && Matches(NoFilters.(createdAfter := f.createdAfter), e)
      && Matches(NoFilters.(createdBefore := f.createdBefore), e)
  {
  }

  /** Page `p` (of size `n > 0`) holds the matches ranked `(p - 1) * n + 1`
      onward: the i-th ranked match (counting from 0) is item `i % n` of page
      `i / n + 1`. So the pages together list every match exactly where its
      rank puts it, for every rank the `int` offset can reach and whose page
      number and page size are themselves `int`s. */
  lemma PageCoverage(s: Cases, f: Filters, pageSize: int, i: nat)
    requires 0 < pageSize <= Int32Max && i < |Ranked(s, f)| && i <= Int32Max
    requires i / pageSize + 1 <= Int32Max
    ensures var r := QueryEntries(s, f, i / pageSize + 1, pageSize);
            i % pageSize < |r| && r[i % pageSize] == Ranked(s, f)[i]
  {
    PageOfCoverage(Ranked(s, f), pageSize, i);
  }

  /** Item `i` of a list is item `i % n` of its page `i / n + 1`. */
  lemma PageOfCoverage(xs: Cases, n: int, i: nat)
    requires 0 < n <= Int32Max && i < |xs| && i <= Int32Max
    requires i / n + 1 <= Int32Max
    ensures var r := PageOf(xs, i / n + 1, n);
            i % n < |r| && r[i % n] == xs[i]
  {
    var page, rem := i / n + 1, i % n;
    PageArithmetic(i, n);
    var skip := Skipped(page, n);
    assert skip + rem == i && 0 <= rem < n;
    var r := PageOf(xs, page, n);
    assert |r| == Min(Max0(n), Max0(|xs| - skip));
    assert r[rem] == xs[skip + rem];
  }

  lemma PageArithmetic(i: nat, n: int)
    requires n > 0 && i <= Int32Max
    ensures 0 <= i % n < n
    ensures Skipped(i / n + 1, n) + i % n == i
  {
    DivMod(i, n);
    SkippedWithinRange(i / n, n);
  }

  lemma DivMod(i: nat, n: int)
    requires n > 0
    ensures (i / n) * n + i % n == i && 0 <= i % n && 0 <= i / n
  {
  }

  /** Page `q + 1` skips `q * n` rows while that fits in an `int`. */
  lemma SkippedWithinRange(q: nat, n: int)
    requires n > 0 && q * n <= Int32Max
    ensures Skipped(q + 1, n) == q * n
  {
    MulIsProduct(q, n);
    assert q * n >= 0;
  }

  /** Every row in the ledger that matches appears in the ranked list. */
  lemma RankedComplete(s: Cases, f: Filters, e: Entry)
    requires e in s && Matches(f, e)
    ensures e in Ranked(s, f)
  {
    RankedMembers(s, f);
  }

  /** Rows of guild `g` appear in increasing case-number order. */
  predicate GuildIncreasing(s: Cases, g: Id) {
    forall i, j :: 0 <= i < j < |s| && s[i].guild == g && s[j].guild == g ==> s[i].caseNumber < s[j].caseNumber
  }

  lemma NumberedGuildIncreasing(s: Cases, g: Id)
    requires Numbered(s)
    ensures GuildIncreasing(s, g)
  {
    forall i, j | 0 <= i < j < |s| && s[i].guild == g && s[j].guild == g
      ensures s[i].caseNumber < s[j].caseNumber
    {
      NumberedIncreasing(s, i, j);
    }
  }

  lemma TailGuildIncreasing(s: Cases, g: Id)
    requires |s| > 0 && GuildIncreasing(s, g)
    ensures GuildIncreasing(s[1..], g)
  {
    forall i, j | 0 <= i < j < |s[1..]| && s[1..][i].guild == g && s[1..][j].guild == g
      ensures s[1..][i].caseNumber < s[1..][j].caseNumber
    {
      assert s[1..][i] == s[i + 1] && s[1..][j] == s[j + 1];
    }
  }

  lemma HeadBelowSelected(s: Cases, f: Filters, g: Id)
    requires |s| > 0 && GuildIncreasing(s, g) && f.guild == Some(g) && s[0].guild == g
    ensures forall y :: y in Select(s[1..], f) ==> s[0].caseNumber < y.caseNumber
  {
    forall y | y in Select(s[1..], f)
      ensures s[0].caseNumber < y.caseNumber
    {
      assert y in s[1..] && y.guild == g;
      var k :| 0 <= k < |s[1..]| && s[1..][k] == y;
      assert s[k + 1] == y;
    }
  }

  predicate Increasing(xs: Cases) {
    forall i, j :: 0 <= i < j < |xs| ==> xs[i].caseNumber < xs[j].caseNumber
  }

  lemma ConsIncreasing(x: Entry, xs: Cases)
    requires Increasing(xs)
    requires forall y :: y in xs ==> x.caseNumber < y.caseNumber
    ensures Increasing([x] + xs)
  {
    var r := [x] + xs;
    forall i, j | 0 <= i < j < |r|
      ensures r[i].caseNumber < r[j].caseNumber
    {
      assert r[j] == xs[j - 1];
      if i > 0 {
        assert r[i] == xs[i - 1];
      } else {
        assert xs[j - 1] in xs;
      }
    }
  }

  /** Filtering to guild `g` keeps its rows in increasing case-number order. */
  lemma {:induction false} SelectOneGuildIncreasing(s: Cases, f: Filters, g: Id)
    requires GuildIncreasing(s, g) && f.guild == Some(g)
    ensures Increasing(Select(s, f))
    decreases |s|
  {
    if |s| > 0 {
      TailGuildIncreasing(s, g);
      SelectOneGuildIncreasing(s[1..], f, g);
      if Matches(f, s[0]) {
        HeadBelowSelected(s, f, g);
        ConsIncreasing(s[0], Select(s[1..], f));
      }
    }
  }

  /** A window of a strictly decreasing list is strictly decreasing. */
  lemma WindowStrict(xs: Cases, skip: int, take: int)
    requires StrictlyDecreasing(xs)
    ensures StrictlyDecreasing(Window(xs, skip, take))
  {
    var r := Window(xs, skip, take);
    forall i, j | 0 <= i < j < |r|
      ensures r[i].caseNumber > r[j].caseNumber
    {
      assert r[i] == xs[Max0(skip) + i] && r[j] == xs[Max0(skip) + j];
    }
  }

  /** Filtered to one guild of a numbered ledger, the ranked matches have
      strictly decreasing case numbers. */
  lemma OneGuildRankedStrict(s: Cases, f: Filters)
    requires Numbered(s) && f.guild.Some?
    ensures StrictlyDecreasing(Ranked(s, f))
  {
    var sel := Select(s, f);
    NumberedGuildIncreasing(s, f.guild.value);
    SelectOneGuildIncreasing(s, f, f.guild.value);
    SortDescStrict(sel);
  }

  /** A query filtered to one guild of a numbered ledger lists strictly
      decreasing case numbers. */
  lemma OneGuildStrictlyDecreasing(s: Cases, f: Filters, page: int, pageSize: int)
    requires Numbered(s) && f.guild.Some?
    ensures StrictlyDecreasing(QueryEntries(s, f, page, pageSize))
  {
    OneGuildRankedStrict(s, f);
    WindowStrict(Ranked(s, f), Skipped(page, pageSize), pageSize);
  }
}
