/**
 * The simpler browsing screen, src/screens/HomeScreen.js: the same search
 * with the fields tested in another order, and a column count that depends
 * on the platform only.
 */
module HomeScreenJs {
  import opened Text
  import opened Catalog
  import opened Platform
  import HomeScreenTsx

  /**
   * The test the filter applies to each movie: the lower-cased search text
   * occurs in the lower-cased title, then genres, then actors.
   */
  function Matches(movie: Movie, searchLower: string): (matched: bool)
    ensures matched <==>
              || Occurs(searchLower, Lower(movie.titre))
              || Occurs(searchLower, Lower(movie.genres))
              || Occurs(searchLower, Lower(movie.acteurs))
    ensures searchLower == "" ==> matched
  {
    || Includes(Lower(movie.titre), searchLower)
    || Includes(Lower(movie.genres), searchLower)
    || Includes(Lower(movie.acteurs), searchLower)
  }

  /** The movies shown for the search text `search`; it is lower-cased per movie. */
  function FilteredMovies(moviesData: seq<Movie>, search: string): (r: seq<Movie>)
    ensures forall m :: m in r <==> m in moviesData && Matches(m, Lower(search))
    ensures |r| <= |moviesData|
  {
    var keep := movie => Matches(movie, Lower(search));
    FilterMembership(moviesData, keep);
    Filter(moviesData, keep)
  }

  /** The movies the search hides. */
  function ExcludedMovies(moviesData: seq<Movie>, search: string): (r: seq<Movie>)
    ensures forall m :: m in r ==> m in moviesData
    ensures forall m :: m in moviesData ==> (m in r <==> !Matches(m, Lower(search)))
  {
    Reject(moviesData, movie => Matches(movie, Lower(search)))
  }

  /** An empty search shows the whole catalog, unchanged and in order. */
  lemma EmptySearchShowsAll(moviesData: seq<Movie>)
    ensures FilteredMovies(moviesData, "") == moviesData
  {
    forall m | m in moviesData
      ensures Matches(m, Lower(""))
    {
      IncludesEmpty(Lower(m.titre));
    }
    FilterAll(moviesData, movie => Matches(movie, Lower("")));
  }

  /**
   * Shown and hidden movies split the catalog: together they are the
   * catalog counted with multiplicity, every shown one matches and every
   * hidden one matches in none of the three fields.
   */
  lemma ShownAndHiddenPartition(moviesData: seq<Movie>, search: string)
    ensures multiset(FilteredMovies(moviesData, search)) + multiset(ExcludedMovies(moviesData, search))
            == multiset(moviesData)
    ensures forall m :: m in FilteredMovies(moviesData, search) ==> Matches(m, Lower(search))
    ensures forall m :: m in ExcludedMovies(moviesData, search) ==>
              && !Includes(Lower(m.titre), Lower(search))
              && !Includes(Lower(m.genres), Lower(search))
              && !Includes(Lower(m.acteurs), Lower(search))
  {
    FilterPartition(moviesData, movie => Matches(movie, Lower(search)));
  }

  /**
   * The shown movies are the catalog's matching movies in catalog order:
   * they sit at increasing catalog positions, and those positions are
   * exactly the ones whose movie matches.
   */
  lemma ShownInCatalogOrder(moviesData: seq<Movie>, search: string)
    ensures IsSubsequence(FilteredMovies(moviesData, search), moviesData)
    ensures exists idx ::
              && Embeds(FilteredMovies(moviesData, search), moviesData, idx)
              && forall i :: 0 <= i < |moviesData| ==> (i in idx <==> Matches(moviesData[i], Lower(search)))
  {
    var idx := Positions(moviesData, movie => Matches(movie, Lower(search)));
  }

  /** Testing genres before actors accepts the same movies as testing actors first. */
  lemma MatchesAgree(m: Movie, searchLower: string)
    ensures Matches(m, searchLower) == HomeScreenTsx.Matches(m, searchLower)
  {
  }

  /** Both screens show the same movies for every catalog and search text. */
  lemma SameAsTsx(moviesData: seq<Movie>, search: string)
    ensures FilteredMovies(moviesData, search) == HomeScreenTsx.FilteredMovies(moviesData, search)
  {
    var searchLower := Lower(search);
    FilterCongruent(moviesData, movie => Matches(movie, searchLower), m => HomeScreenTsx.Matches(m, searchLower));
  }

  /** The column count handed to the list: 0 on the web, 2 elsewhere. */
  function NumColumns(os: OS): (n: nat)
    ensures n == 0 <==> os == Web
    ensures n == 2 <==> os != Web
  {
    if os == Web then 0 else 2
  }

  /** The two screens never pick the same column count, whatever the width. */
  lemma ColumnRulesDiffer(os: OS, width: real)
    ensures NumColumns(os) != HomeScreenTsx.GetNumColumns(os, width)
    ensures os != Web ==> HomeScreenTsx.GetNumColumns(os, width) == NumColumns(os) + 1
  {
  }
}
