/**
  The selection half of `get_cpp_snippet` (script.py:49-66): given the parsed
  GraphQL reply, pick the code of the first snippet whose language is "C++",
  together with the problem's content, or skip the problem for one of three
  reasons.
 */
module Snippets {
  import opened Wrappers

  /** One element of `codeSnippets`; `code` is `None` for a JSON null. */
  datatype Snippet = Snippet(lang: string, code: Option<string>)

  /**
    The `question` object. `content` is `None` when the key is missing or null;
    `codeSnippets` is empty when the key is missing or null.
   */
  datatype Question = Question(content: Option<string>, codeSnippets: seq<Snippet>)

  /** Which of the three early returns the script takes. */
  datatype SkipReason = QuestionUnavailable | NoSnippets | NoCppSnippet

  /** `(None, None)` with its reason, or `(cpp_snippet, content)`. */
  datatype SnippetResult = Skipped(reason: SkipReason) | Selected(code: string, content: string)

  const TargetLang := "C++"

  /** `next((s['code'] for s in snippets if s['lang'] == 'C++'), None)` */
  function FirstCppCode(snippets: seq<Snippet>): (r: Option<string>)
    ensures (forall i :: 0 <= i < |snippets| ==> snippets[i].lang != TargetLang) ==> r.None?
  {
    if snippets == [] then None
    else if snippets[0].lang == TargetLang then snippets[0].code
    else
      var r := FirstCppCode(snippets[1..]);
      assert forall i :: 1 <= i < |snippets| ==> snippets[i] == snippets[1..][i - 1];
      r
  }

  /** The generator yields the code of the first "C++" snippet, whatever follows it. */
  lemma {:induction false} FirstCppCodeIsFirst(snippets: seq<Snippet>, i: nat)
    requires i < |snippets| && snippets[i].lang == TargetLang
    requires forall j :: 0 <= j < i ==> snippets[j].lang != TargetLang
    ensures FirstCppCode(snippets) == snippets[i].code
  {
    if i > 0 {
      assert snippets[0].lang != TargetLang;
      assert forall j :: 0 <= j < i - 1 ==> snippets[1..][j] == snippets[j + 1];
      FirstCppCodeIsFirst(snippets[1..], i - 1);
    }
  }

  /** `question_data.get("content", "")` */
  function ContentOf(q: Question): string {
    match q.content
    case Some(c) => c
    case None => ""
  }

  /** The part of `get_cpp_snippet` after the request: the three skips, then the selection. */
  function SelectSnippet(question: Option<Question>): (r: SnippetResult)
    ensures r == Skipped(QuestionUnavailable) <==> question.None?
    ensures r == Skipped(NoSnippets) <==> question.Some? && question.value.codeSnippets == []
    ensures r.Selected? ==> question.Some? && r.code != []
                            && FirstCppCode(question.value.codeSnippets) == Some(r.code)
                            && r.content == ContentOf(question.value)
  {
    match question
    case None => Skipped(QuestionUnavailable)
    case Some(q) =>
      if q.codeSnippets == [] then Skipped(NoSnippets)
      else
        match FirstCppCode(q.codeSnippets)
        case None => Skipped(NoCppSnippet)
        case Some(code) =>
          if code == [] then Skipped(NoCppSnippet) else Selected(code, ContentOf(q))
  }

  /**
    With a question and at least one snippet, the outcome is decided by the first
    "C++" snippet alone: its code when that is present and non-empty, and a skip
    otherwise, even when a later "C++" snippet has code.
   */
  lemma SelectFirstCpp(q: Question, i: nat)
    requires i < |q.codeSnippets| && q.codeSnippets[i].lang == TargetLang
    requires forall j :: 0 <= j < i ==> q.codeSnippets[j].lang != TargetLang
    ensures SelectSnippet(Some(q)) ==
              match q.codeSnippets[i].code
              case Some(code) => if code == [] then Skipped(NoCppSnippet) else Selected(code, ContentOf(q))
              case None => Skipped(NoCppSnippet)
  {
    FirstCppCodeIsFirst(q.codeSnippets, i);
  }

  /** A question whose snippets are all in other languages is skipped for lack of C++. */
  lemma SelectNoCpp(q: Question)
    requires q.codeSnippets != []
    requires forall j :: 0 <= j < |q.codeSnippets| ==> q.codeSnippets[j].lang != TargetLang
    ensures SelectSnippet(Some(q)) == Skipped(NoCppSnippet)
  {
  }
}
