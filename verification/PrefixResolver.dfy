/** Text-command prefix resolution (`CustomPrefixResolver.ResolvePrefixAsync`).
    The prefix list is fixed; the guild's stored prefix is not consulted, so
    the resolver takes no settings store. */
module PrefixResolver {
  import opened Common

  /** The prefixes tried, in order. Neither has a case variant, so the
      case-insensitive comparison of the source is the ordinal one here. */
  const Prefixes: seq<string> := ["!", "~"]

  /** The length of the first prefix in `ps` that `content` starts with, or -1. */
  function FirstMatch(content: string, ps: seq<string>): (r: int)
    ensures r == -1 <==> forall i :: 0 <= i < |ps| ==> !StartsWith(content, ps[i])
    ensures r != -1 ==>
              exists i :: 0 <= i < |ps| && StartsWith(content, ps[i]) && r == |ps[i]|
                          && forall j :: 0 <= j < i ==> !StartsWith(content, ps[j])
  {
    if |ps| == 0 then -1
    else if StartsWith(content, ps[0]) then |ps[0]|
    else
      var r := FirstMatch(content, ps[1..]);
      assert forall i :: 1 <= i < |ps| ==> ps[i] == ps[1..][i - 1];
      if r != -1 then
        var i :| 0 <= i < |ps[1..]| && StartsWith(content, ps[1..][i]) && r == |ps[1..][i]|
                 && forall j :: 0 <= j < i ==> !StartsWith(content, ps[1..][j]);
        assert forall j :: 0 <= j < i + 1 ==> !StartsWith(content, ps[j]);
        r
      else r
  }

  /** `ResolvePrefixAsync`: -1 for blank content or a message without a
      channel; otherwise the length of the prefix the content starts with,
      or -1 when it starts with none. */
  function ResolvePrefix(content: Option<string>, hasChannel: bool): (r: int)
    ensures IsBlank(content) || !hasChannel ==> r == -1
    ensures r != -1 ==> content.Some? && 0 <= r <= |content.value| && content.value[..r] in Prefixes
    ensures !IsBlank(content) && hasChannel ==>
              (r == -1 <==> forall i :: 0 <= i < |Prefixes| ==> !StartsWith(content.value, Prefixes[i]))
  {
    if IsBlank(content) || !hasChannel then -1
    else FirstMatch(content.value, Prefixes)
  }

  /** Every prefix is one character: content starting with "!" or "~"
      resolves to 1, and content starting with anything else to -1. */
  lemma ResolveByFirstCharacter(content: string)
    requires |content| > 0 && !IsWhiteSpace(content[0])
    ensures content[0] == '!' || content[0] == '~' ==> ResolvePrefix(Some(content), true) == 1
    ensures content[0] != '!' && content[0] != '~' ==> ResolvePrefix(Some(content), true) == -1
  {
    assert !IsBlank(Some(content));
    assert |Prefixes| == 2 && Prefixes[0] == "!" && Prefixes[1] == "~";
    assert forall i :: 0 <= i < |Prefixes| ==> |Prefixes[i]| == 1;
    assert StartsWith(content, "!") <==> content[0] == '!' by {
      assert content[..1] == [content[0]];
    }
    assert StartsWith(content, "~") <==> content[0] == '~' by {
      assert content[..1] == [content[0]];
    }
  }
}
