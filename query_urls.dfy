/**
 * The catalogue queries of the page: one URL per genre row, asking the API
 * for that genre sorted by descending IMDb score; the "Meilleurs" row asks
 * for every genre.
 */
module QueryUrls {
  import opened Wrappers

  const ApiUrl := "http://localhost:8000/api/v1/titles"
  const PathSeparator := "/"
  const QueryStart := "?"
  const Equals := "="
  const Joiner := "&"
  const GenreKey := "genre"
  const SortKey := "sort_by"
  const SortValue := "-imdb_score"

  /** The genre rows of the page, in display order. */
  const Genres: seq<string> := ["Sci-Fi", "Action", "Meilleurs", "Fantasy"]

  /** The "best overall" row: it filters on no genre. */
  const BestRow := "Meilleurs"

  /** The genre filter value of a row. */
  function GenreParam(g: string): (r: string)
    ensures r == "" <==> g == BestRow || g == ""
    ensures g != BestRow ==> r == g
  {
    if g == BestRow then "" else g
  }

  const QueryPrefix := ApiUrl + PathSeparator + QueryStart + GenreKey + Equals
  const QuerySuffix := Joiner + SortKey + Equals + SortValue

  /** The query URL of a genre row. */
  function QueryUrl(g: string): string {
    QueryPrefix + GenreParam(g) + QuerySuffix
  }

  /** Reads the genre filter value back out of a query URL. */
  function GenreOfUrl(u: string): Option<string> {
    if |u| >= |QueryPrefix| + |QuerySuffix| && u[..|QueryPrefix|] == QueryPrefix && u[|u| - |QuerySuffix|..] == QuerySuffix
    then Some(u[|QueryPrefix|..|u| - |QuerySuffix|])
    else None
  }

  /** Every query URL carries its row's genre filter recoverably. */
  lemma QueryUrlRoundTrip(g: string)
    ensures GenreOfUrl(QueryUrl(g)) == Some(GenreParam(g))
  {
    var u := QueryUrl(g);
    assert u[..|QueryPrefix|] == QueryPrefix;
    assert u[|u| - |QuerySuffix|..] == QuerySuffix;
    assert u[|QueryPrefix|..|u| - |QuerySuffix|] == GenreParam(g);
  }

  /** Two rows share a URL exactly when they filter on the same genre; "Meilleurs" shares it with "". */
  lemma QueryUrlInjective(a: string, b: string)
    ensures QueryUrl(a) == QueryUrl(b) <==> GenreParam(a) == GenreParam(b)
  {
    if QueryUrl(a) == QueryUrl(b) {
      QueryUrlRoundTrip(a);
      QueryUrlRoundTrip(b);
    }
  }

  /** The best row queries without a genre filter. */
  lemma BestRowUrl()
    ensures QueryUrl(BestRow) == "http://localhost:8000/api/v1/titles/?genre=&sort_by=-imdb_score"
  {
    assert QueryUrl(BestRow) == QueryPrefix + QuerySuffix;
    assert QueryPrefix == "http://localhost:8000/api/v1/titles/?genre=";
    assert QuerySuffix == "&sort_by=-imdb_score";
  }

  /** The page's loop over the genre rows: one URL per row, in the rows' order. */
  method BuildQueryUrls(genres: seq<string>) returns (urls: seq<string>)
    ensures |urls| == |genres|
    ensures forall i :: 0 <= i < |genres| ==> GenreOfUrl(urls[i]) == Some(GenreParam(genres[i]))
    ensures forall i :: 0 <= i < |genres| ==> urls[i] == QueryUrl(genres[i])
  {
    urls := [];
    for i := 0 to |genres|
      invariant |urls| == i
      invariant forall j :: 0 <= j < i ==> urls[j] == QueryUrl(genres[j])
    {
      var genreFilter: string;
      if genres[i] == BestRow {
        genreFilter := "";
      } else {
        genreFilter := genres[i];
      }
      var url := ApiUrl + PathSeparator + QueryStart + GenreKey + Equals + genreFilter
        + Joiner + SortKey + Equals + SortValue;
      urls := urls + [url];
    }
    forall i | 0 <= i < |genres|
      ensures GenreOfUrl(urls[i]) == Some(GenreParam(genres[i]))
    {
      QueryUrlRoundTrip(genres[i]);
    }
  }
}
