/** Reading a language model's JSON answer: strip surrounding white space,
    unwrap a Markdown code fence when the answer starts with one, decode, and
    fall back to a fixed value when decoding fails. The mind-map generator and
    the entity extractor share this procedure. */
module LlmResponse {
  import opened Common

  /** Python's `s.split("\n")`: the pieces between line breaks, at least one. */
  function SplitLines(s: string): (r: seq<string>)
    ensures |r| >= 1
    ensures forall i :: 0 <= i < |r| ==> '\n' !in r[i]
    decreases |s|
  {
    if |s| == 0 then [""]
    else
      var rest := SplitLines(s[1..]);
      if s[0] == '\n' then [""] + rest
      else [[s[0]] + rest[0]] + rest[1..]
  }

  /** Joining the pieces with line breaks gives the text back. */
  lemma {:induction false} JoinSplitLines(s: string)
    ensures Join(SplitLines(s), "\n") == s
    decreases |s|
  {
    if |s| > 0 {
      JoinSplitLines(s[1..]);
      var rest := SplitLines(s[1..]);
      if s[0] == '\n' {
        assert ([""] + rest)[1..] == rest;
      } else if |rest| > 1 {
        var r := [[s[0]] + rest[0]] + rest[1..];
        assert r[1..] == rest[1..];
        assert Join(rest, "\n") == rest[0] + "\n" + Join(rest[1..], "\n");
      }
      assert s == [s[0]] + s[1..];
    }
  }

  /** A text without line breaks is one piece. */
  lemma {:induction false} SplitLinesSingle(a: string)
    requires '\n' !in a
    ensures SplitLines(a) == [a]
    decreases |a|
  {
    if |a| > 0 {
      assert '\n' !in a[1..] by {
        assert forall c :: c in a[1..] ==> c in a;
      }
      SplitLinesSingle(a[1..]);
      assert [a[0]] + a[1..] == a;
    }
  }

  /** A first line without line breaks splits off as the first piece. */
  lemma {:induction false} SplitLinesFirst(a: string, b: string)
    requires '\n' !in a
    ensures SplitLines(a + "\n" + b) == [a] + SplitLines(b)
    decreases |a|
  {
    var s := a + "\n" + b;
    if |a| == 0 {
      assert s[0] == '\n' && s[1..] == b;
    } else {
      assert '\n' !in a[1..] by {
        assert forall c :: c in a[1..] ==> c in a;
      }
      assert s[0] == a[0] && s[1..] == a[1..] + "\n" + b;
      SplitLinesFirst(a[1..], b);
      assert [a[0]] + a[1..] == a;
    }
  }

  /** Splitting pieces joined with line breaks gives the pieces back. */
  lemma {:induction false} SplitJoinLines(parts: seq<string>)
    requires |parts| >= 1 && forall i :: 0 <= i < |parts| ==> '\n' !in parts[i]
    ensures SplitLines(Join(parts, "\n")) == parts
    decreases |parts|
  {
    if |parts| == 1 {
      SplitLinesSingle(parts[0]);
    } else {
      SplitJoinLines(parts[1..]);
      SplitLinesFirst(parts[0], Join(parts[1..], "\n"));
      assert [parts[0]] + parts[1..] == parts;
    }
  }

  /** Joining after appending a last piece appends it after a line break. */
  lemma {:induction false} JoinAppend(parts: seq<string>, x: string, sep: string)
    requires |parts| >= 1
    ensures Join(parts + [x], sep) == Join(parts, sep) + sep + x
    decreases |parts|
  {
    var all := parts + [x];
    assert all[1..] == parts[1..] + [x];
    if |parts| > 1 {
      JoinAppend(parts[1..], x, sep);
    }
  }

  /** The lines inside ```json fences, in order: a line starting with ```json
      opens a fence, any other line starting with ``` closes it, and both are
      dropped. */
  function FenceBody(lines: seq<string>, inJson: bool): (r: seq<string>)
    ensures |r| <= |lines|
    ensures forall l :: l in r ==> l in lines && !StartsWith(l, "```")
    decreases |lines|
  {
    if |lines| == 0 then []
    else
      assert forall l :: l in lines[1..] ==> l in lines;
      if StartsWith(lines[0], "```json") then FenceBody(lines[1..], true)
      else if StartsWith(lines[0], "```") then FenceBody(lines[1..], false)
      else if inJson then [lines[0]] + FenceBody(lines[1..], true)
      else FenceBody(lines[1..], false)
  }

  /** A line that opens a ```json fence starts with ```. */
  lemma FencePrefix(x: string)
    ensures StartsWith(x, "```json") ==> StartsWith(x, "```")
  {
    if StartsWith(x, "```json") {
      assert x[..3] == x[..7][..3];
    }
  }

  /** Inside an open fence, every plain line is kept until the closing one. */
  lemma {:induction false} FenceBodyInside(body: seq<string>)
    requires forall i :: 0 <= i < |body| ==> !StartsWith(body[i], "```")
    ensures FenceBody(body + ["```"], true) == body
    decreases |body|
  {
    var all := body + ["```"];
    if |body| == 0 {
      assert all == ["```"] && StartsWith(all[0], "```") && !StartsWith(all[0], "```json");
      assert all[1..] == [];
    } else {
      assert all[0] == body[0] && all[1..] == body[1..] + ["```"];
      FencePrefix(body[0]);
      FenceBodyInside(body[1..]);
      assert [body[0]] + body[1..] == body;
    }
  }

  /** The text to decode: the stripped answer, or, when it starts with a code
      fence, the lines inside its ```json fences joined with line breaks. */
  function UnwrapFence(response: string): (r: string)
    ensures !StartsWith(StripPy(response), "```") ==> r == StripPy(response)
  {
    var t := StripPy(response);
    if StartsWith(t, "```") then Join(FenceBody(SplitLines(t), false), "\n") else t
  }

  /** A trimmed text is its own trim. */
  lemma TrimNothing(s: string, ws: char -> bool)
    requires |s| > 0 && !ws(s[0]) && !ws(s[|s| - 1])
    ensures Trim(s, ws) == s
  {
    assert SkipFrom(s, ws, 0) == 0;
    assert SkipBack(s, ws, |s|) == |s|;
    assert s[0..|s|] == s;
  }

  /** The fenced text starts and ends with a backtick, so stripping keeps it. */
  lemma FencedTextShape(body: seq<string>)
    ensures var s := Join(["```json"] + body + ["```"], "\n");
            StripPy(s) == s && StartsWith(s, "```")
  {
    var parts := ["```json"] + body + ["```"];
    var s := Join(parts, "\n");
    assert parts[1..] == body + ["```"];
    assert s == "```json" + "\n" + Join(body + ["```"], "\n");
    if |body| > 0 {
      JoinAppend(body, "```", "\n");
    }
    assert s[|s| - 1] == '`';
    assert s[0] == '`';
    TrimNothing(s, IsPyWhitespace);
    assert s[..3] == "```";
  }

  /** The fence lines around a body hold no line breaks when the body holds none. */
  lemma FencedPartsSingleLines(body: seq<string>)
    requires forall i :: 0 <= i < |body| ==> '\n' !in body[i]
    ensures var parts := ["```json"] + body + ["```"];
            forall i :: 0 <= i < |parts| ==> '\n' !in parts[i]
  {
    var parts := ["```json"] + body + ["```"];
    forall i | 0 <= i < |parts| ensures '\n' !in parts[i] {
      if 0 < i < |parts| - 1 {
        assert parts[i] == body[i - 1];
      }
    }
  }

  /** A leading ```json line opens a fence. */
  lemma FenceOpens(tail: seq<string>)
    ensures FenceBody(["```json"] + tail, false) == FenceBody(tail, true)
  {
    var parts := ["```json"] + tail;
    assert parts[0] == "```json" && parts[1..] == tail;
    assert StartsWith("```json", "```json");
  }

  /** The opening ```json line starts a fence that keeps the body. */
  lemma FenceBodyOpened(body: seq<string>)
    requires forall i :: 0 <= i < |body| ==> !StartsWith(body[i], "```")
    ensures FenceBody(["```json"] + body + ["```"], false) == body
  {
    AppendAssociative(["```json"], body, ["```"]);
    FenceOpens(body + ["```"]);
    FenceBodyInside(body);
  }

  /** The fenced text splits into its lines and keeps the body. */
  lemma FencedTextLines(body: seq<string>)
    requires forall i :: 0 <= i < |body| ==> '\n' !in body[i] && !StartsWith(body[i], "```")
    ensures FenceBody(SplitLines(Join(["```json"] + body + ["```"], "\n")), false) == body
  {
    FencedPartsSingleLines(body);
    SplitJoinLines(["```json"] + body + ["```"]);
    FenceBodyOpened(body);
  }

  /** The fenced answer ```json, body lines, ``` unwraps to the body. */
  lemma UnwrapFencedBody(body: seq<string>)
    requires forall i :: 0 <= i < |body| ==> '\n' !in body[i] && !StartsWith(body[i], "```")
    ensures UnwrapFence(Join(["```json"] + body + ["```"], "\n")) == Join(body, "\n")
  {
    FencedTextShape(body);
    FencedTextLines(body);
  }

  /** `_parse_response`: decode the unwrapped answer with `decode`, or return
      `fallback` when it does not decode. */
  function ParseResponse<D>(response: string, decode: string -> Option<D>, fallback: D): (r: D)
    ensures decode(UnwrapFence(response)).None? ==> r == fallback
    ensures decode(UnwrapFence(response)).Some? ==> r == decode(UnwrapFence(response)).value
  {
    match decode(UnwrapFence(response))
    case Some(d) => d
    case None => fallback
  }

  /** A fenced answer reads as its body: the fence never reaches the decoder. */
  lemma ParseFencedResponse<D>(body: seq<string>, decode: string -> Option<D>, fallback: D)
    requires forall i :: 0 <= i < |body| ==> '\n' !in body[i] && !StartsWith(body[i], "```")
    ensures ParseResponse(Join(["```json"] + body + ["```"], "\n"), decode, fallback)
         == (match decode(Join(body, "\n")) case Some(d) => d case None => fallback)
  {
    UnwrapFencedBody(body);
  }
}
