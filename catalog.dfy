/**
  `get_slug_title_difficulty` (script.py:19-29): a linear search of the problem
  catalog for the first entry with the requested frontend id, and the mapping of
  its numeric difficulty level to a name. The catalog is the parsed
  `stat_status_pairs` list of the bulk listing the script downloads.
 */
module Catalog {
  import opened Wrappers

  /** One element of `stat_status_pairs`: the fields the script reads. */
  datatype CatalogEntry = CatalogEntry(frontendId: int, slug: string, title: string, level: int)

  /** The `(slug, title, difficulty)` triple of a found problem. */
  datatype Metadata = Metadata(slug: string, title: string, difficulty: string)

  /** `difficulty_map` */
  const DifficultyMap: map<int, string> := map[1 := "Easy", 2 := "Medium", 3 := "Hard"]

  /** The directory names a difficulty can take. */
  predicate IsDifficultyName(d: string) {
    d == "Easy" || d == "Medium" || d == "Hard" || d == "Unknown"
  }

  lemma DifficultyNameHasNoSeparator(d: string)
    requires IsDifficultyName(d)
    ensures '/' !in d
  {
  }

  /** `difficulty_map.get(level, "Unknown")` */
  function DifficultyOf(level: int): (d: string)
    ensures d == "Easy" <==> level == 1
    ensures d == "Medium" <==> level == 2
    ensures d == "Hard" <==> level == 3
    ensures d == "Unknown" <==> level != 1 && level != 2 && level != 3
    ensures IsDifficultyName(d)
  {
    if level in DifficultyMap then DifficultyMap[level] else "Unknown"
  }

  /** What the script returns for a matching entry. */
  function MetadataOf(e: CatalogEntry): Metadata {
    Metadata(e.slug, e.title, DifficultyOf(e.level))
  }

  /** The search, as a specification: the first entry whose id matches, or `None` for `(None, None, None)`. */
  function Lookup(catalog: seq<CatalogEntry>, n: int): (r: Option<Metadata>)
    ensures r.None? <==> forall i :: 0 <= i < |catalog| ==> catalog[i].frontendId != n
    ensures r.Some? ==> IsDifficultyName(r.value.difficulty)
  {
    if catalog == [] then None
    else if catalog[0].frontendId == n then Some(MetadataOf(catalog[0]))
    else
      var r := Lookup(catalog[1..], n);
      assert forall i :: 1 <= i < |catalog| ==> catalog[i] == catalog[1..][i - 1];
      r
  }

  /** The entry the search stops at is the first match: earlier matches win over later ones. */
  lemma {:induction false} LookupFindsFirst(catalog: seq<CatalogEntry>, n: int, i: nat)
    requires i < |catalog| && catalog[i].frontendId == n
    requires forall j :: 0 <= j < i ==> catalog[j].frontendId != n
    ensures Lookup(catalog, n) == Some(MetadataOf(catalog[i]))
  {
    if i > 0 {
      assert catalog[0].frontendId != n;
      assert forall j :: 0 <= j < i - 1 ==> catalog[1..][j] == catalog[j + 1];
      LookupFindsFirst(catalog[1..], n, i - 1);
    }
  }

  /** `get_slug_title_difficulty(problem_number)`, with the catalog it downloads as a parameter. */
  method GetSlugTitleDifficulty(catalog: seq<CatalogEntry>, n: int) returns (r: Option<Metadata>)
    ensures r == Lookup(catalog, n)
  {
    for i := 0 to |catalog|
      invariant forall j :: 0 <= j < i ==> catalog[j].frontendId != n
    {
      if catalog[i].frontendId == n {
        LookupFindsFirst(catalog, n, i);
        return Some(MetadataOf(catalog[i]));
      }
    }
    return None;
  }
}
