/**
 * What `process_with_gemini` does with the model's reply once the remote call returns:
 * strip a markdown code fence, and (after JSON parsing, which is not modelled) stamp every
 * entry with one shared processing timestamp.
 */
module Extraction {
  import opened PyStr
  import opened Json

  const JsonFence: string := "```json"
  const Fence: string := "```"

  /** `s[len(p):]` when `s` starts with `p`, else `s`. */
  function DropPrefix(s: string, p: string): (r: string)
    ensures StartsWith(s, p) ==> s == p + r
    ensures !StartsWith(s, p) ==> r == s
  {
    if StartsWith(s, p) then s[|p|..] else s
  }

  /** `s[:-len(p)]` when `s` ends with `p`, else `s`. */
  function DropSuffix(s: string, p: string): (r: string)
    ensures EndsWith(s, p) ==> s == r + p
    ensures !EndsWith(s, p) ==> r == s
  {
    if EndsWith(s, p) then s[..|s| - |p|] else s
  }

  /** The fence removal between the two strips: a leading "```json", a leading "```", a trailing "```". */
  function Unwrap(t: string): (r: string)
    ensures |r| <= |t|
    ensures !StartsWith(t, Fence) && !EndsWith(t, Fence) ==> r == t
  {
    JsonFenceIsFence(t);
    DropSuffix(DropPrefix(DropPrefix(t, JsonFence), Fence), Fence)
  }

  /**
   * The cleanup of the reply text, as one expression: strip it, drop a leading "```json",
   * then a leading "```", then a trailing "```", and strip again.
   */
  function Unfence(reply: string): (r: string)
    ensures Stripped(r)
    ensures |r| <= |reply|
  {
    Strip(Unwrap(Strip(reply)))
  }

  /** The cleanup as the source writes it: `result_text` reassigned step by step. */
  method CleanReply(reply: string) returns (text: string)
    ensures text == Unfence(reply)
  {
    text := Strip(reply);
    ghost var stripped := text;
    if StartsWith(text, JsonFence) {
      text := text[7..];
    }
    if StartsWith(text, Fence) {
      text := text[3..];
    }
    if EndsWith(text, Fence) {
      text := text[..|text| - 3];
    }
    assert text == Unwrap(stripped);
    text := Strip(text);
  }

  /** A "```json" opening is also a "```" opening. */
  lemma JsonFenceIsFence(s: string)
    ensures StartsWith(s, JsonFence) ==> StartsWith(s, Fence)
  {
    if StartsWith(s, JsonFence) {
      assert s[..3] == s[..7][..3];
    }
  }

  /** A reply with no fence at either end comes back as it is, apart from surrounding whitespace. */
  lemma UnfencedReplyKept(reply: string)
    requires !StartsWith(Strip(reply), Fence) && !EndsWith(Strip(reply), Fence)
    ensures Unfence(reply) == Strip(reply)
  {
    var t := Strip(reply);
    JsonFenceIsFence(t);
    assert Unwrap(t) == t;
    StripIdempotent(reply);
  }

  /** In particular, an already clean JSON text is returned unchanged. */
  lemma CleanReplyUnchanged(reply: string)
    requires Stripped(reply) && !StartsWith(reply, Fence) && !EndsWith(reply, Fence)
    ensures Unfence(reply) == reply
  {
    StripStripped(reply);
    UnfencedReplyKept(reply);
  }

  /** A text that ends in a fence loses exactly that fence. */
  lemma DropClosingFence(s: string)
    ensures DropSuffix(s + Fence, Fence) == s
  {
    assert (s + Fence)[|s|..] == Fence;
  }

  /**
   * What is left of `s + "```"` after its opening fence, if any, is dropped: `s` when `s`
   * does not open with a fence itself.
   */
  lemma DropOpeningFenceBeforeClosing(s: string)
    requires !StartsWith(s, Fence)
    ensures DropSuffix(DropPrefix(s + Fence, Fence), Fence) == s
  {
    var t := s + Fence;
    if StartsWith(t, Fence) {
      // Only a short run of backticks can make s + "```" open with a fence;
      // dropping that fence leaves the run itself, which has no closing fence.
      assert |s| < 3;
      forall i | 0 <= i < |s|
        ensures s[i] == '`' && t[3..][i] == '`'
      {
        assert s[i] == t[..3][i];
      }
      assert t[3..] == s;
    } else {
      DropClosingFence(s);
    }
  }

  /** A reply wrapped as "```json" + s + "```" loses both fences. */
  lemma UnwrapJsonFenced(s: string)
    requires !StartsWith(s, Fence)
    ensures Unwrap(JsonFence + s + Fence) == s
  {
    var reply := JsonFence + s + Fence;
    assert reply[..7] == JsonFence;
    assert reply[7..] == s + Fence;
    DropOpeningFenceBeforeClosing(s);
  }

  /** A text that opens and closes with a backtick has nothing for `strip()` to remove. */
  lemma FencedIsStripped(t: string)
    requires |t| > 0 && t[0] == '`' && t[|t| - 1] == '`'
    ensures Strip(t) == t
  {
    StripStripped(t);
  }

  /** A reply wrapped as "```json" + s + "```" gives `s` stripped. */
  lemma JsonFencedReply(s: string)
    requires !StartsWith(s, Fence)
    ensures Unfence(JsonFence + s + Fence) == Strip(s)
  {
    var reply := JsonFence + s + Fence;
    FencedIsStripped(reply);
    UnwrapJsonFenced(s);
  }

  /** A reply wrapped as "```" + s + "```", where s is not a "json" tag, loses both fences. */
  lemma UnwrapPlainFenced(s: string)
    requires !StartsWith(s, "json")
    ensures Unwrap(Fence + s + Fence) == s
  {
    var reply := Fence + s + Fence;
    assert !StartsWith(reply, JsonFence) by {
      if |s| >= 4 {
        assert reply[3..7] == s[..4];
      } else {
        assert reply[3 + |s|] == '`';
      }
    }
    assert reply[..3] == Fence;
    assert reply[3..] == s + Fence;
    DropClosingFence(s);
  }

  /** A reply wrapped as "```" + s + "```", where s is not a "json" tag, gives `s` stripped. */
  lemma PlainFencedReply(s: string)
    requires !StartsWith(s, "json")
    ensures Unfence(Fence + s + Fence) == Strip(s)
  {
    var reply := Fence + s + Fence;
    FencedIsStripped(reply);
    UnwrapPlainFenced(s);
  }

  /** The cleanup is not idempotent: a doubled fence needs two passes. */
  lemma UnfenceNotIdempotent()
    ensures Unfence("``````json x") == "```json x"
    ensures Unfence("```json x") == "x"
  {
    DoubledFenceFirstPass();
    DoubledFenceSecondPass();
  }

  /** First pass over a doubled fence: only the outer "```" goes. */
  lemma DoubledFenceFirstPass()
    ensures Unfence("``````json x") == "```json x"
  {
    var w := "``````json x";
    var t := "```json x";
    assert w[0] == '`' && w[|w| - 1] == 'x';
    StripStripped(w);
    assert w[..7][3] != JsonFence[3];
    assert w[..3] == Fence;
    assert w[3..] == t;
    assert t[|t| - 3..][2] != Fence[2];
    assert Unwrap(w) == t;
    assert t[0] == '`' && t[|t| - 1] == 'x';
    StripStripped(t);
  }

  /** One whitespace character before a clean text is all that `strip()` removes. */
  lemma StripOneLeadingSpace(c: char, s: string)
    requires IsSpace(c) && s != [] && Stripped(s)
    ensures Strip([c] + s) == s
  {
    assert ([c] + s)[1..] == s;
    StripStripped(s);
  }

  /** Second pass: the inner "```json" goes and the text is stripped. */
  lemma DoubledFenceSecondPass()
    ensures Unfence("```json x") == "x"
  {
    var t := "```json x";
    assert t[0] == '`' && t[|t| - 1] == 'x';
    StripStripped(t);
    assert t[..7] == JsonFence;
    assert t[7..] == " x";
    assert " x"[0] != Fence[0];
    assert Unwrap(t) == " x";
    assert " x" == [' '] + "x";
    StripOneLeadingSpace(' ', "x");
  }

  /**
   * The loop that sets `entry['ts'] = current_ts` on every parsed entry. The dictionaries
   * are updated in place; the model returns the updated list.
   */
  method StampAll(data: seq<Entry>, ts: string) returns (stamped: seq<Entry>)
    ensures stamped == Stamped(data, ts)
    ensures |stamped| == |data|
    ensures forall i :: 0 <= i < |data| ==> stamped[i].Keys == data[i].Keys + {"ts"}
    ensures forall i :: 0 <= i < |data| ==> stamped[i]["ts"] == Str(ts)
    ensures forall i, k :: 0 <= i < |data| && k in data[i] && k != "ts" ==> stamped[i][k] == data[i][k]
  {
    stamped := data;
    for i := 0 to |stamped|
      invariant |stamped| == |data|
      invariant forall j :: 0 <= j < i ==> stamped[j] == data[j]["ts" := Str(ts)]
      invariant forall j :: i <= j < |data| ==> stamped[j] == data[j]
    {
      stamped := stamped[i := stamped[i]["ts" := Str(ts)]];
    }
  }

  /** The specification of stamping: every entry gets the one timestamp. */
  function Stamped(data: seq<Entry>, ts: string): (r: seq<Entry>)
    ensures |r| == |data|
    ensures forall i :: 0 <= i < |r| ==> r[i].Keys == data[i].Keys + {"ts"} && r[i]["ts"] == Str(ts)
    ensures forall i, k :: 0 <= i < |r| && k in data[i] && k != "ts" ==> r[i][k] == data[i][k]
  {
    seq(|data|, i requires 0 <= i < |data| => data[i]["ts" := Str(ts)])
  }
}
