/**
  `sanitize_filename` (script.py:96-97): keep the characters that are
  alphanumeric or one of "-_ ", then delete the spaces.
 */
module Sanitize {
  import opened PyStr

  /** The comprehension's test: `c.isalnum() or c in "-_ "`. */
  predicate PassesFilter(c: char) {
    IsAlnum(c) || c in "-_ "
  }

  /** A character that may appear in a sanitised name. */
  predicate IsSafe(c: char) {
    IsAlnum(c) || c == '-' || c == '_'
  }

  /** `"".join(c if <test> else "" for c in name)` */
  function KeepFiltered(name: string): (r: string)
    ensures forall c :: c in r ==> c in name && PassesFilter(c)
  {
    if name == [] then []
    else (if PassesFilter(name[0]) then [name[0]] else []) + KeepFiltered(name[1..])
  }

  /** `s.replace(" ", "")` */
  function RemoveSpaces(s: string): (r: string)
    ensures forall c :: c in r ==> c in s && c != ' '
  {
    if s == [] then []
    else (if s[0] == ' ' then [] else [s[0]]) + RemoveSpaces(s[1..])
  }

  /** `sanitize_filename(name)` */
  function SanitizeFilename(name: string): (r: string)
    ensures forall c :: c in r ==> IsSafe(c)
  {
    RemoveSpaces(KeepFiltered(name))
  }

  /** Reference definition: keep exactly the safe characters, in order. */
  function SafeChars(s: string): (r: string)
    ensures |r| <= |s|
    ensures forall c :: c in r <==> c in s && IsSafe(c)
  {
    if s == [] then []
    else
      var rest := SafeChars(s[1..]);
      assert forall c :: c in s <==> c == s[0] || c in s[1..];
      (if IsSafe(s[0]) then [s[0]] else []) + rest
  }

  /** Python's `replace` distributes over concatenation. */
  lemma {:induction false} RemoveSpacesConcat(a: string, b: string)
    ensures RemoveSpaces(a + b) == RemoveSpaces(a) + RemoveSpaces(b)
  {
    if a != [] {
      assert (a + b)[0] == a[0] && (a + b)[1..] == a[1..] + b;
      RemoveSpacesConcat(a[1..], b);
      var head := if a[0] == ' ' then [] else [a[0]];
      assert RemoveSpaces(a + b) == head + (RemoveSpaces(a[1..]) + RemoveSpaces(b));
      assert RemoveSpaces(a) == head + RemoveSpaces(a[1..]);
    } else {
      assert a + b == b;
    }
  }

  /** The two passes of `sanitize_filename` amount to a single filter on the safe characters. */
  lemma {:induction false} SanitizeIsSafeChars(name: string)
    ensures SanitizeFilename(name) == SafeChars(name)
  {
    if name != [] {
      var head := if PassesFilter(name[0]) then [name[0]] else [];
      RemoveSpacesConcat(head, KeepFiltered(name[1..]));
      SanitizeIsSafeChars(name[1..]);
      if head != [] {
        assert head[1..] == [];
      }
    }
  }

  lemma {:induction false} SafeCharsOfSafe(s: string)
    requires forall c :: c in s ==> IsSafe(c)
    ensures SafeChars(s) == s
  {
    if s != [] {
      assert s[0] in s;
      assert forall c :: c in s[1..] ==> c in s;
      SafeCharsOfSafe(s[1..]);
    }
  }

  /** A sanitised name contains exactly the safe characters of the title, never a space, and is never longer. */
  lemma SanitizeCharacters(name: string)
    ensures forall c :: c in SanitizeFilename(name) <==> c in name && IsSafe(c)
    ensures ' ' !in SanitizeFilename(name)
    ensures |SanitizeFilename(name)| <= |name|
  {
    SanitizeIsSafeChars(name);
  }

  /** Sanitising twice is sanitising once. */
  lemma SanitizeIdempotent(name: string)
    ensures SanitizeFilename(SanitizeFilename(name)) == SanitizeFilename(name)
  {
    var once := SanitizeFilename(name);
    SanitizeIsSafeChars(once);
    SafeCharsOfSafe(once);
  }

  /** `sub` can be obtained from `s` by deleting characters. */
  predicate IsSubsequence(sub: string, s: string)
    decreases |s|
  {
    if sub == [] then true
    else if s == [] then false
    else if sub[0] == s[0] then IsSubsequence(sub[1..], s[1..])
    else IsSubsequence(sub, s[1..])
  }

  lemma {:induction false} SafeCharsSubsequence(s: string)
    ensures IsSubsequence(SafeChars(s), s)
  {
    if s != [] {
      SafeCharsSubsequence(s[1..]);
      var rest := SafeChars(s[1..]);
      if IsSafe(s[0]) {
        assert ([s[0]] + rest)[1..] == rest;
      } else {
        assert SafeChars(s) == rest;
        assert rest != [] ==> rest[0] in rest && rest[0] != s[0];
      }
    }
  }

  /** The sanitised name keeps the title's characters in their original order. */
  lemma SanitizeSubsequence(name: string)
    ensures IsSubsequence(SanitizeFilename(name), name)
  {
    SanitizeIsSafeChars(name);
    SafeCharsSubsequence(name);
  }

  lemma {:induction false} SafeCharsConcat(a: string, b: string)
    ensures SafeChars(a + b) == SafeChars(a) + SafeChars(b)
  {
    if a == [] {
      assert a + b == b;
    } else {
      assert (a + b)[0] == a[0] && (a + b)[1..] == a[1..] + b;
      SafeCharsConcat(a[1..], b);
    }
  }

  /** Sanitising a concatenation sanitises each part: the filter looks at one character at a time. */
  lemma SanitizeConcat(a: string, b: string)
    ensures SanitizeFilename(a + b) == SanitizeFilename(a) + SanitizeFilename(b)
  {
    SanitizeIsSafeChars(a + b);
    SanitizeIsSafeChars(a);
    SanitizeIsSafeChars(b);
    SafeCharsConcat(a, b);
  }

  /** A name made only of safe characters is left as it is. */
  lemma SanitizeOfSafe(s: string)
    requires forall c :: c in s ==> IsSafe(c)
    ensures SanitizeFilename(s) == s
  {
    SanitizeIsSafeChars(s);
    SafeCharsOfSafe(s);
  }

  /** Two safe words around a dropped separator are joined. */
  lemma SanitizeJoins(first: string, sep: string, second: string)
    requires forall c :: c in first ==> IsSafe(c)
    requires forall c :: c in second ==> IsSafe(c)
    requires SanitizeFilename(sep) == []
    ensures SanitizeFilename(first + sep + second) == first + second
  {
    SanitizeOfSafe(first);
    SanitizeOfSafe(second);
    SanitizeConcat(first, sep);
    assert first + [] == first;
    SanitizeConcat(first + sep, second);
  }

  lemma SanitizeSpace()
    ensures SanitizeFilename(" ") == []
  {
    SanitizeIsSafeChars(" ");
    assert SafeChars(" ") == SafeChars(" "[1..]);
  }

  lemma SanitizeSortColors()
    ensures SanitizeFilename("Sort Colors") == "SortColors"
  {
    SanitizeSpace();
    SanitizeJoins("Sort", " ", "Colors");
    assert "Sort" + " " + "Colors" == "Sort Colors";
    assert "Sort" + "Colors" == "SortColors";
  }
}
