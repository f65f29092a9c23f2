/**
  `save_solution` (script.py:99-109): the directory, file name and content the
  script writes, and the effect of the write on the tree under the save root.
 */
module Persistence {
  import opened PyStr
  import opened Sanitize

  /** `SAVE_DIR` */
  const SaveDir := "Leetcode"

  const UrlBase := "https://leetcode.com/problems/"

  /** One call's effect: the directory it ensures exists, the file path and the text written there. */
  datatype WrittenFile = WrittenFile(dir: string, path: string, content: string)

  /** `f"{problem_number}-{sanitized_title}.cpp"` */
  function SolutionFileName(n: int, title: string): string {
    IntToDecimal(n) + "-" + SanitizeFilename(title) + ".cpp"
  }

  /** `Path(SAVE_DIR) / difficulty` */
  function SolutionDir(difficulty: string): string {
    SaveDir + "/" + difficulty
  }

  /** `Path(SAVE_DIR) / difficulty / file_name` */
  function SolutionPath(n: int, title: string, difficulty: string): string {
    SolutionDir(difficulty) + "/" + SolutionFileName(n, title)
  }

  /** The URL path segment of the header: the lower-cased sanitised title, not the slug. */
  function UrlSlug(title: string): (r: string)
    ensures forall i :: 0 <= i < |r| ==> IsLower(r[i]) || IsDigit(r[i]) || r[i] == '-' || r[i] == '_'
  {
    var safe := SanitizeFilename(title);
    forall i | 0 <= i < |safe| ensures IsSafe(safe[i]) {
      assert safe[i] in safe;
    }
    Lower(safe)
  }

  /** The first header line, without its line break. */
  function ProblemLine(n: int, title: string): string {
    "// Problem " + IntToDecimal(n) + ": " + title
  }

  /** The second header line, without its line break. */
  function UrlLine(title: string): string {
    "// " + UrlBase + UrlSlug(title) + "/"
  }

  /** What the first two `write` calls put before the code. */
  function Header(n: int, title: string): string {
    ProblemLine(n, title) + "\n" + UrlLine(title) + "\n\n"
  }

  /** `save_solution(problem_number, problem_title, solution_code, difficulty)` */
  function SaveSolution(n: int, title: string, code: string, difficulty: string): (f: WrittenFile)
    ensures f.dir == SolutionDir(difficulty)
    ensures f.path == f.dir + "/" + SolutionFileName(n, title) == SolutionPath(n, title, difficulty)
    ensures f.content == Header(n, title) + code
  {
    var dir := SolutionDir(difficulty);
    WrittenFile(dir, dir + "/" + SolutionFileName(n, title), Header(n, title) + code)
  }

  /** A file name never contains a path separator, so it stays inside its difficulty directory. */
  lemma FileNameHasNoSeparator(n: int, title: string)
    ensures '/' !in SolutionFileName(n, title)
    ensures EndsWith(SolutionFileName(n, title), ".cpp")
  {
    var number, safe := IntToDecimal(n), SanitizeFilename(title);
    NoCharInDecimal(n, '/');
    assert '/' !in safe by {
      assert !IsSafe('/');
    }
    CharNotInConcat(number, "-", '/');
    CharNotInConcat(number + "-", safe, '/');
    CharNotInConcat(number + "-" + safe, ".cpp", '/');
    SuffixOf(number + "-" + safe, ".cpp");
  }

  /** The file name determines the problem number and the sanitised title. */
  lemma SolutionFileNameInjective(n1: int, t1: string, n2: int, t2: string)
    requires SolutionFileName(n1, t1) == SolutionFileName(n2, t2)
    ensures n1 == n2 && SanitizeFilename(t1) == SanitizeFilename(t2)
  {
    var s1, s2 := SanitizeFilename(t1), SanitizeFilename(t2);
    assert IntToDecimal(n1) + "-" + (s1 + ".cpp") == IntToDecimal(n2) + "-" + (s2 + ".cpp") by {
      ConcatAssoc(IntToDecimal(n1) + "-", s1, ".cpp");
      ConcatAssoc(IntToDecimal(n2) + "-", s2, ".cpp");
    }
    DecimalDashSplit(n1, s1 + ".cpp", n2, s2 + ".cpp");
    SuffixCancel(s1, s2, ".cpp");
  }

  lemma SolutionPathShape(n: int, title: string, d: string)
    ensures SolutionPath(n, title, d) == (SaveDir + "/") + (d + "/" + SolutionFileName(n, title))
  {
    ConcatAssoc(SaveDir + "/", d + "/", SolutionFileName(n, title));
    ConcatAssoc(SaveDir + "/", d, "/");
  }

  /**
    Two saves with difficulties free of '/' go to the same path only when they are
    for the same problem number, the same difficulty and the same sanitised
    title: different problems never overwrite each other's files.
   */
  lemma SolutionPathInjective(n1: int, t1: string, d1: string, n2: int, t2: string, d2: string)
    requires '/' !in d1 && '/' !in d2
    requires SolutionPath(n1, t1, d1) == SolutionPath(n2, t2, d2)
    ensures n1 == n2 && d1 == d2 && SanitizeFilename(t1) == SanitizeFilename(t2)
  {
    var name1, name2 := SolutionFileName(n1, t1), SolutionFileName(n2, t2);
    var root := SaveDir + "/";
    assert root + (d1 + "/" + name1) == root + (d2 + "/" + name2) by {
      SolutionPathShape(n1, t1, d1);
      SolutionPathShape(n2, t2, d2);
    }
    assert d1 + "/" + name1 == d2 + "/" + name2 by {
      PrefixCancel(root, d1 + "/" + name1, d2 + "/" + name2);
    }
    assert '/' !in name1 && '/' !in name2 by {
      FileNameHasNoSeparator(n1, t1);
      FileNameHasNoSeparator(n2, t2);
    }
    SplitAtSeparator(d1, name1, d2, name2, '/');
    SolutionFileNameInjective(n1, t1, n2, t2);
  }

  /** `str(n)` holds only digits and a minus sign. */
  lemma NoCharInDecimal(n: int, c: char)
    requires !IsDigit(c) && c != '-'
    ensures c !in IntToDecimal(n)
  {
    var d := NatToDecimal(if n < 0 then -n else n);
    assert forall i :: 0 <= i < |d| ==> d[i] != c;
    if n < 0 {
      CharNotInConcat("-", d, c);
    }
  }

  lemma NoNewlineInProblemLine(n: int, title: string)
    requires '\n' !in title
    ensures '\n' !in ProblemLine(n, title)
  {
    NoCharInDecimal(n, '\n');
    CharNotInConcat("// Problem ", IntToDecimal(n), '\n');
    CharNotInConcat("// Problem " + IntToDecimal(n), ": ", '\n');
    CharNotInConcat("// Problem " + IntToDecimal(n) + ": ", title, '\n');
  }

  lemma NoNewlineInUrlLine(title: string)
    ensures '\n' !in UrlLine(title)
  {
    var slug := UrlSlug(title);
    assert forall i :: 0 <= i < |slug| ==> slug[i] != '\n';
    CharNotInConcat("// ", UrlBase, '\n');
    CharNotInConcat("// " + UrlBase, slug, '\n');
    CharNotInConcat("// " + UrlBase + slug, "/", '\n');
  }

  /** When the title has no line break, the header is exactly two lines and a blank line. */
  lemma HeaderLines(n: int, title: string)
    requires '\n' !in title
    ensures NewlineCount(Header(n, title)) == 3
    ensures EndsWith(Header(n, title), "\n\n")
  {
    var first, second := ProblemLine(n, title), UrlLine(title);
    NoNewlineInProblemLine(n, title);
    NoNewlineInUrlLine(title);
    NoNewlineCount(first);
    NoNewlineCount(second);
    NewlineCountConcat(first, "\n");
    NewlineCountConcat(first + "\n", second);
    NewlineCountConcat(first + "\n" + second, "\n\n");
    assert NewlineCount("\n") == 1 && NewlineCount("\n\n") == 2;
  }

  /** The directories and files under the save root. */
  datatype FileTree = FileTree(dirs: set<string>, files: map<string, string>)

  /**
    Applying one save: `mkdir(parents=True, exist_ok=True)` adds the save root
    and the difficulty directory, `open(..., "w")` replaces the file's text.
   */
  function Persist(t: FileTree, f: WrittenFile): (r: FileTree)
    ensures r.dirs == t.dirs + {SaveDir, f.dir}
    ensures r.files.Keys == t.files.Keys + {f.path} && r.files[f.path] == f.content
    ensures forall p :: p in t.files && p != f.path ==> r.files[p] == t.files[p]
  {
    FileTree(t.dirs + {SaveDir, f.dir}, t.files[f.path := f.content])
  }

  /*
    The example's literal facts are proved apart from `SortColorsExample`: in its
    context each of them is far more expensive for the solver.
   */

  lemma SortColorsPath()
    ensures SaveDir + "/" + "Medium" + "/" + ("75" + "-" + "SortColors" + ".cpp") == "Leetcode/Medium/75-SortColors.cpp"
  {
  }

  lemma LowerSortColors()
    ensures Lower("SortColors") == "sortcolors"
  {
  }

  lemma DecimalOf75()
    ensures IntToDecimal(75) == "75"
  {
    assert NatToDecimal(7) == "7";
    assert DigitChar(5) == '5';
  }

  /**
    For problem 75, "Sort Colors", at difficulty "Medium": the file goes to
    Leetcode/Medium/75-SortColors.cpp, and the header's URL names "sortcolors",
    which is not the problem's slug "sort-colors".
   */
  lemma SortColorsExample(code: string)
    ensures SaveSolution(75, "Sort Colors", code, "Medium").path == "Leetcode/Medium/75-SortColors.cpp"
    ensures UrlSlug("Sort Colors") == "sortcolors" != "sort-colors"
  {
    SanitizeSortColors();
    DecimalOf75();
    SortColorsPath();
    LowerSortColors();
  }
}
