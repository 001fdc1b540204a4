/** The model's reply as both scripts receive it: the call that may fail, the cleaning
    before it is decoded as JSON (every "```json", then every "```", then the surrounding
    whitespace are removed), and the decoding that may fail. */
module Reply {
  import opened Errors
  import opened Text

  const JsonFence := "```json"
  const Fence := "```"

  /** The reply of the model server, or the failure of the call. */
  function Answer(reply: Option<string>): Result<string> {
    match reply
    case None => Err(ModelCallFailed)
    case Some(content) => Ok(content)
  }

  /** `json.loads` followed by the keyword-list validation, both scripts alike. */
  function Decoded(keywords: Option<seq<string>>): Result<seq<string>> {
    match keywords
    case None => Err(MalformedReply)
    case Some(ks) => Ok(ks)
  }

  /** `content.replace("```json", "").replace("```", "").strip()`: the cleaned reply holds no
      code fence and has no surrounding whitespace. */
  function StripFences(content: string): (r: string)
    ensures IsStripped(r)
    ensures !Occurs(r, Fence)
  {
    var x := ReplaceAll(ReplaceAll(content, JsonFence, ""), Fence, "");
    FenceRemovalComplete(ReplaceAll(content, JsonFence, ""));
    StripKeepsAbsent(x, Fence);
    Strip(x)
  }

  /** Removing fences from text that does not start with a backtick keeps its first character. */
  lemma RemovalKeepsHead(s: string)
    ensures s != [] && s[0] != '`' ==> ReplaceAll(s, Fence, "") != [] && ReplaceAll(s, Fence, "")[0] == s[0]
  {
  }

  /** After removing every "```" scanning left to right, no "```" is left: the pieces that remain
      never end in a backtick that could join the next piece into a new fence. */
  lemma {:induction false} FenceRemovalComplete(s: string)
    ensures !Occurs(ReplaceAll(s, Fence, ""), Fence)
    decreases |s|
  {
    var x := ReplaceAll(s, Fence, "");
    if |s| < 3 {
      assert x == s;
    } else if s[..3] == Fence {
      FenceRemovalComplete(s[3..]);
      var y := ReplaceAll(s[3..], Fence, "");
      assert x == "" + y == y;
    } else {
      var r := ReplaceAll(s[1..], Fence, "");
      FenceRemovalComplete(s[1..]);
      assert x == [s[0]] + r;
      assert Fence[0] == Fence[1] == Fence[2] == '`';
      forall i | 0 <= i && i + 3 <= |x| ensures !OccursAt(x, Fence, i) {
        if i == 0 {
          if s[0] == '`' {
            if s[1] != '`' {
              RemovalKeepsHead(s[1..]);
              assert x[1] == s[1];
            } else {
              assert s[2] != '`';
              if |s[1..]| < 3 {
                assert r == s[1..];
              } else {
                assert s[1..][..3] != Fence;
                assert r == [s[1]] + ReplaceAll(s[1..][1..], Fence, "");
                assert s[1..][1..] == s[2..];
                RemovalKeepsHead(s[2..]);
              }
              assert x[2] == s[2];
            }
          }
          assert x[..3][0] == x[0] && x[..3][1] == x[1] && x[..3][2] == x[2];
        } else {
          assert x[i..i + 3] == r[i - 1..i + 2];
          assert !OccursAt(r, Fence, i - 1);
        }
      }
    }
  }

  /** Any text containing "```json" contains "```". */
  lemma JsonFenceHasFence(s: string)
    ensures Occurs(s, JsonFence) ==> Occurs(s, Fence)
  {
    if Occurs(s, JsonFence) {
      var i :| 0 <= i <= |s| && OccursAt(s, JsonFence, i);
      assert s[i..i + 3] == s[i..i + 7][..3];
      assert OccursAt(s, Fence, i);
    }
  }

  /** Cleaning an already cleaned reply changes nothing. */
  lemma StripFencesIdempotent(content: string)
    ensures StripFences(StripFences(content)) == StripFences(content)
  {
    var c := StripFences(content);
    JsonFenceHasFence(c);
    ReplaceAbsent(c, JsonFence, "");
    ReplaceAbsent(c, Fence, "");
    var _ := StripSlice(c);
  }

  /** A reply without any backtick is only stripped of surrounding whitespace. */
  lemma StripFencesPlain(content: string)
    requires '`' !in content
    ensures StripFences(content) == Strip(content)
  {
    forall i | 0 <= i && i + 3 <= |content|
      ensures !OccursAt(content, JsonFence, i) && !OccursAt(content, Fence, i)
    {
      assert content[i] != '`';
      assert content[i..i + 3][0] == content[i];
    }
    ReplaceAbsent(content, JsonFence, "");
    ReplaceAbsent(content, Fence, "");
  }

  /** A reply wrapped in a JSON code fence, "```json<body>```", is cleaned down to the
      stripped body when the body holds no backtick. */
  lemma StripFencesJsonReply(body: string)
    requires '`' !in body
    ensures StripFences(JsonFence + body + Fence) == Strip(body)
  {
    assert ReplaceAll(JsonFence + body + Fence, JsonFence, "") == body + Fence by {
      assert JsonFence + body + Fence == JsonFence + (body + Fence);
      ReplaceAllHit(body + Fence, JsonFence, "");
      ReplaceAllPlain(body, Fence, JsonFence, "");
      assert ReplaceAll(Fence, JsonFence, "") == Fence;
    }
    assert ReplaceAll(body + Fence, Fence, "") == body by {
      ReplaceAllPlain(body, Fence, Fence, "");
      ReplaceAllHit([], Fence, "");
      assert Fence + [] == Fence;
      assert body + "" == body;
    }
  }
}
