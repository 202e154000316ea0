/**
 * The clean-up `generateSQL` applies to the language model's reply
 * (src/lmAssist.ts): an opening ```sql fence and a closing ``` fence are
 * cut off, then surrounding white space.
 */
module LmAssist {
  import opened Text

  const Fence := "```"

  /** The text opens with the fence followed by `sq` in either case. */
  predicate OpensWithFence(s: string) {
    |s| >= 5 && s[..3] == Fence && s[3] in "sS" && s[4] in "qQ"
  }

  /**
   * The length of the prefix `/^```sql?\n?/i` matches: the fence, `s` and
   * `q` in either case, an optional `l`, an optional newline; 0 when the
   * text does not open that way.
   */
  function OpeningLength(s: string): (n: nat)
    ensures n <= |s|
    ensures n != 0 <==> OpensWithFence(s)
    ensures n != 0 ==> 5 <= n <= 7
    ensures n != 0 ==>
      var l := if |s| > 5 && s[5] in "lL" then 1 else 0;
      n == 5 + l + (if |s| > 5 + l && s[5 + l] == '\n' then 1 else 0)
  {
    if OpensWithFence(s) then
      var k := if |s| > 5 && s[5] in "lL" then 6 else 5;
      if |s| > k && s[k] == '\n' then k + 1 else k
    else 0
  }

  /** The first `replace`: cut the opening fence, if any. */
  function StripOpening(s: string): (r: string)
    ensures |r| <= |s| && r == s[|s| - |r|..]
  {
    s[OpeningLength(s)..]
  }

  /** The second `replace`, `/\n?```$/i`: cut a closing fence and one newline before it. */
  function StripClosing(s: string): (r: string)
    ensures |s| - 4 <= |r| <= |s| && r == s[..|r|]
  {
    if EndsWith(s, "\n" + Fence) then s[..|s| - 4]
    else if EndsWith(s, Fence) then s[..|s| - 3]
    else s
  }

  /** The text `generateSQL` returns for a reply. */
  function StripFences(reply: string): (r: string)
    ensures r == [] || (!IsJsSpace(r[0]) && !IsJsSpace(r[|r| - 1]))
  {
    Trim(StripClosing(StripOpening(reply)))
  }

  /**
   * Only a prefix of at most seven characters is removed at the start, and
   * only one that begins with the fence and `sq` in either case.
   */
  lemma OpeningStripIsFencePrefix(s: string)
    ensures exists k :: 0 <= k <= 7 && k <= |s| && StripOpening(s) == s[k..]
    ensures StripOpening(s) != s <==> OpensWithFence(s)
    ensures OpensWithFence(s) ==> |StripOpening(s)| <= |s| - 5
  {
    var k := OpeningLength(s);
    assert StripOpening(s) == s[k..];
  }

  /** A fence not followed by `sq` is kept, and so is a second opening fence. */
  lemma BareFenceKept(s: string)
    requires StartsWith(s, Fence)
    requires |s| < 5 || s[3] !in "sS" || s[4] !in "qQ"
    ensures StripOpening(s) == s
  {
  }

  lemma SecondOpeningFenceKept(body: string)
    ensures StripOpening("```sql\n```sql\n" + body) == "```sql\n" + body
  {
    var s := "```sql\n```sql\n" + body;
    assert s[..3] == Fence && s[5] == 'l' && s[6] == '\n';
    assert s[7..] == "```sql\n" + body;
  }

  /**
   * At the end, only the last three or four characters go, and only when
   * they are the fence, with or without one newline before it.
   */
  lemma ClosingStripIsFenceSuffix(s: string)
    ensures EndsWith(s, "\n" + Fence) ==> StripClosing(s) + "\n" + Fence == s
    ensures EndsWith(s, Fence) && !EndsWith(s, "\n" + Fence) ==> StripClosing(s) + Fence == s
    ensures !EndsWith(s, Fence) ==> StripClosing(s) == s
  {
    if EndsWith(s, "\n" + Fence) {
      assert s[|s| - 3..] == (s[|s| - 4..])[1..];
    }
  }

  /** A reply with no fence at either end only loses its surrounding white space. */
  lemma UnfencedReplyIsTrimmed(reply: string)
    requires !StartsWith(reply, Fence) && !EndsWith(reply, Fence)
    ensures StripFences(reply) == Trim(reply)
  {
    assert StripOpening(reply) == reply;
    ClosingStripIsFenceSuffix(reply);
  }

  /** The usual model reply, a body wrapped in a ```sql block, comes back as the trimmed body. */
  lemma WrappedReplyGivesBody(body: string)
    ensures StripFences("```sql\n" + body + "\n```") == Trim(body)
  {
    var s := "```sql\n" + body + "\n```";
    assert s[..3] == Fence && s[3] == 's' && s[4] == 'q' && s[5] == 'l' && s[6] == '\n';
    assert OpeningLength(s) == 7;
    var rest := body + "\n```";
    assert StripOpening(s) == rest;
    assert rest[|rest| - 4..] == "\n" + Fence;
    assert rest[..|rest| - 4] == body;
  }
}
