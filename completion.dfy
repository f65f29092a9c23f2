/**
  The post-processing half of `generate_cpp_solution_with_openai`
  (script.py:83-94): strip the reply, drop a leading "```cpp"/"```c++" line,
  drop a trailing "```", strip again; any exception becomes the error text.
 */
module Completion {
  import opened Wrappers
  import opened PyStr

  /** What the completion call did: raised, or returned the message content. */
  datatype Reply = Raised | Returned(text: string)

  /** What the `except` branch returns. */
  const ErrorText := "// OpenAI API error."

  const OpenCpp := "```cpp"
  const OpenCplusplus := "```c++"
  const Fence := "```"

  predicate HasOpener(code: string) {
    StartsWith(code, OpenCpp) || StartsWith(code, OpenCplusplus)
  }

  /** `code.split('\n', 1)[1]`; `None` stands for the `IndexError` of a text without a newline. */
  function AfterFirstLine(code: string): (r: Option<string>)
    ensures r.None? <==> '\n' !in code
    ensures r.Some? ==> |r.value| < |code| && r.value == code[|code| - |r.value|..]
                        && code[|code| - |r.value| - 1] == '\n' && '\n' !in code[..|code| - |r.value| - 1]
  {
    match IndexOf(code, '\n')
    case None => None
    case Some(i) => Some(code[i + 1..])
  }

  /**
    The body of the `try` after `.strip()`: `None` when `split` raises. In a
    text that ends with "```", the last occurrence `rsplit` finds is the final
    three characters.
   */
  function RemoveFences(code: string): (r: Option<string>)
    ensures r.None? <==> HasOpener(code) && '\n' !in code
    ensures r.Some? ==> IsStripped(r.value)
  {
    var unfenced := if HasOpener(code) then AfterFirstLine(code) else Some(code);
    match unfenced
    case None => None
    case Some(body) => Some(Strip(CutClosingFence(body)))
  }

  /** `rsplit('```', 1)[0]` on a text that ends with "```"; any other text is kept. */
  function CutClosingFence(body: string): (r: string)
    ensures EndsWith(body, Fence) ==> r + Fence == body
    ensures !EndsWith(body, Fence) ==> r == body
  {
    if EndsWith(body, Fence) then body[..|body| - |Fence|] else body
  }

  /** What `generate_cpp_solution_with_openai` returns, given what the call did. */
  function GenerateSolution(reply: Reply): (r: string)
    ensures IsStripped(r)
    ensures reply.Raised? ==> r == ErrorText
  {
    ErrorTextIsStripped();
    match reply
    case Raised => ErrorText
    case Returned(text) =>
      match RemoveFences(Strip(text))
      case None => ErrorText
      case Some(code) => code
  }

  lemma ErrorTextIsStripped()
    ensures IsStripped(ErrorText)
  {
    assert ErrorText[0] == '/' && ErrorText[|ErrorText| - 1] == '.';
  }

  /** A reply without fences comes back stripped and otherwise unchanged. */
  lemma UnfencedReply(text: string)
    requires !HasOpener(Strip(text)) && !EndsWith(Strip(text), Fence)
    ensures GenerateSolution(Returned(text)) == Strip(text)
  {
    var code := Strip(text);
    assert RemoveFences(code) == Some(Strip(code));
    StripIdempotent(text);
  }

  /** A text that starts with an opener but has no line break makes `split('\n', 1)[1]` raise, so the error text is returned. */
  lemma OpenerWithoutNewline(text: string)
    requires HasOpener(Strip(text)) && '\n' !in Strip(text)
    ensures GenerateSolution(Returned(text)) == ErrorText
  {
  }

  /**
    With an opener, the whole first line goes, whatever follows it: a closing
    "```" at the very end is cut and the rest stripped.
   */
  lemma OpenerLine(opener: string, info: string, rest: string)
    requires opener == OpenCpp || opener == OpenCplusplus
    requires '\n' !in info
    ensures RemoveFences(opener + info + "\n" + rest) == Some(Strip(CutClosingFence(rest)))
  {
    var head := opener + info;
    var text := opener + info + "\n" + rest;
    ConcatAssoc(head, "\n", rest);
    ConcatAssoc(opener, info, "\n" + rest);
    PrefixOf(opener, info + ("\n" + rest));
    assert '\n' !in head by {
      assert forall c :: c in head ==> c in opener || c in info;
    }
    IndexOfAfter(head, rest);
    SuffixOf(head + "\n", rest);
    assert HasOpener(text);
    assert AfterFirstLine(text) == Some(rest);
  }

  /**
    A reply cut off after the opening line, with no closing fence: the text
    after the first line comes back as it is.
   */
  lemma TruncatedReply(opener: string, info: string, rest: string)
    requires opener == OpenCpp || opener == OpenCplusplus
    requires '\n' !in info
    requires rest != [] && IsStripped(rest) && !EndsWith(rest, Fence)
    ensures GenerateSolution(Returned(opener + info + "\n" + rest)) == rest
  {
    var text := opener + info + "\n" + rest;
    assert Strip(text) == text by {
      assert text[0] == '`' && text[|text| - 1] == rest[|rest| - 1];
      StripOfStripped(text);
    }
    OpenerLine(opener, info, rest);
    StripOfStripped(rest);
  }

  lemma FencedIsStripped(opener: string, info: string, inner: string)
    requires opener == OpenCpp || opener == OpenCplusplus
    ensures Strip(opener + info + "\n" + inner + "\n" + Fence) == opener + info + "\n" + inner + "\n" + Fence
  {
    var fenced := opener + info + "\n" + inner + "\n" + Fence;
    assert fenced[0] == '`' && fenced[|fenced| - 1] == '`';
    StripOfStripped(fenced);
  }

  lemma ClosingFence(inner: string)
    ensures EndsWith(inner + "\n" + Fence, Fence)
    ensures CutClosingFence(inner + "\n" + Fence) == inner + "\n"
  {
    var body := inner + "\n" + Fence;
    assert body[..|body| - |Fence|] == inner + "\n";
  }

  lemma StripNewline(inner: string)
    ensures Strip(inner + "\n") == Strip(inner)
  {
    assert AllSpace("\n") by {
      assert "\n"[0] == '\n' && IsSpace('\n');
    }
    assert AllSpace([]);
    StripPadded([], inner, "\n");
    assert [] + inner + "\n" == inner + "\n";
  }

  /** The part of `FencedReply` after the first `strip()`. */
  lemma RemoveFencesOfFenced(opener: string, info: string, inner: string)
    requires opener == OpenCpp || opener == OpenCplusplus
    requires '\n' !in info
    ensures RemoveFences(opener + info + "\n" + inner + "\n" + Fence) == Some(Strip(inner))
  {
    OpenerLine(opener, info, inner + "\n" + Fence);
    ConcatAssoc(opener + info + "\n", inner + "\n", Fence);
    ConcatAssoc(opener + info + "\n", inner, "\n");
    ClosingFence(inner);
    StripNewline(inner);
  }

  /**
    A reply fenced on both sides, with either spelling of the opening fence, any
    remainder on the opening line and whitespace around it all, yields the inner
    text stripped.
   */
  lemma FencedReply(pre: string, opener: string, info: string, inner: string, post: string)
    requires opener == OpenCpp || opener == OpenCplusplus
    requires '\n' !in info
    requires AllSpace(pre) && AllSpace(post)
    ensures GenerateSolution(Returned(pre + opener + info + "\n" + inner + "\n" + Fence + post))
            == Strip(inner)
  {
    var fenced := opener + info + "\n" + inner + "\n" + Fence;
    var text := pre + opener + info + "\n" + inner + "\n" + Fence + post;
    assert Strip(text) == fenced by {
      ConcatAssoc(pre, opener, info);
      ConcatAssoc(pre, opener + info, "\n");
      ConcatAssoc(pre, opener + info + "\n", inner);
      ConcatAssoc(pre, opener + info + "\n" + inner, "\n");
      ConcatAssoc(pre, opener + info + "\n" + inner + "\n", Fence);
      StripPadded(pre, fenced, post);
      FencedIsStripped(opener, info, inner);
    }
    assert RemoveFences(fenced) == Some(Strip(inner)) by {
      RemoveFencesOfFenced(opener, info, inner);
    }
  }

  /** The common case: "```cpp", a line break, the code, a line break, "```". */
  lemma FencedCppReply(inner: string)
    ensures GenerateSolution(Returned(OpenCpp + "\n" + inner + "\n" + Fence)) == Strip(inner)
  {
    assert [] + OpenCpp + [] + "\n" + inner + "\n" + Fence + [] == OpenCpp + "\n" + inner + "\n" + Fence;
    FencedReply([], OpenCpp, [], inner, []);
  }

  lemma IndexOfAfter(head: string, tail: string)
    requires '\n' !in head
    ensures IndexOf(head + ("\n" + tail), '\n') == Some(|head|)
  {
    var s := head + ("\n" + tail);
    assert s[..|head|] == head && s[|head|] == '\n';
  }

  /** Without an opener, a trailing "```" is cut off and the rest stripped. */
  lemma RemoveClosingFence(code: string)
    requires !HasOpener(code) && EndsWith(code, Fence)
    ensures RemoveFences(code) == Some(Strip(code[..|code| - |Fence|]))
  {
    assert RemoveFences(code) == Some(Strip(CutClosingFence(code)));
  }

  /** Only a closing fence: everything before the final "```" comes back stripped. */
  lemma ClosingFenceOnly(text: string)
    requires !HasOpener(Strip(text)) && EndsWith(Strip(text), Fence)
    ensures GenerateSolution(Returned(text)) == Strip(Strip(text)[..|Strip(text)| - |Fence|])
  {
    RemoveClosingFence(Strip(text));
  }
}
