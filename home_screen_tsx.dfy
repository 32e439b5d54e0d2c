/**
 * The richer browsing screen, src/screens/HomeScreen.tsx: a search over
 * title, actors and genres, a width-dependent column count, and the movie
 * selected for the detail modal.
 */
module HomeScreenTsx {
  import opened Text
  import opened Catalog
  import opened Platform

  /**
   * The test the filter applies to each movie: the lower-cased search text
   * occurs in the lower-cased title, then actors, then genres.
   */
  function Matches(m: Movie, searchLower: string): (matched: bool)
    ensures matched <==>
              || Occurs(searchLower, Lower(m.titre))
              || Occurs(searchLower, Lower(m.acteurs))
              || Occurs(searchLower, Lower(m.genres))
    ensures searchLower == "" ==> matched
  {
    || Includes(Lower(m.titre), searchLower)
    || Includes(Lower(m.acteurs), searchLower)
    || Includes(Lower(m.genres), searchLower)
  }

  /** The movies shown for the search text `search`. */
  function FilteredMovies(moviesData: seq<Movie>, search: string): (r: seq<Movie>)
    ensures forall m :: m in r <==> m in moviesData && Matches(m, Lower(search))
    ensures |r| <= |moviesData|
  {
    var searchLower := Lower(search);
    FilterMembership(moviesData, m => Matches(m, searchLower));
    Filter(moviesData, m => Matches(m, searchLower))
  }

  /** The movies the search hides. */
  function ExcludedMovies(moviesData: seq<Movie>, search: string): (r: seq<Movie>)
    ensures forall m :: m in r <==> m in moviesData && !Matches(m, Lower(search))
  {
    var searchLower := Lower(search);
    Reject(moviesData, m => Matches(m, searchLower))
  }

  /** An empty search shows the whole catalog, unchanged and in order. */
  lemma EmptySearchShowsAll(moviesData: seq<Movie>)
    ensures FilteredMovies(moviesData, "") == moviesData
  {
    forall m | m in moviesData
      ensures Matches(m, Lower(""))
    {
      IncludesEmpty(Lower(m.titre));
    }
    FilterAll(moviesData, m => Matches(m, Lower("")));
  }

  /**
   * Shown and hidden movies split the catalog: together they are the
   * catalog counted with multiplicity, every shown one matches and every
   * hidden one matches in none of the three fields.
   */
  lemma ShownAndHiddenPartition(moviesData: seq<Movie>, search: string)
    ensures multiset(FilteredMovies(moviesData, search)) + multiset(ExcludedMovies(moviesData, search))
            == multiset(moviesData)
    ensures forall m :: m in FilteredMovies(moviesData, search) ==> Matches(m, Lower(search))
    ensures forall m :: m in ExcludedMovies(moviesData, search) ==>
              && !Includes(Lower(m.titre), Lower(search))
              && !Includes(Lower(m.acteurs), Lower(search))
              && !Includes(Lower(m.genres), Lower(search))
  {
    FilterPartition(moviesData, m => Matches(m, Lower(search)));
  }

  /** A movie is shown as often as the catalog lists it, if it matches, and never otherwise. */
  lemma ShownCount(moviesData: seq<Movie>, search: string, m: Movie)
    ensures multiset(FilteredMovies(moviesData, search))[m]
            == if Matches(m, Lower(search)) then multiset(moviesData)[m] else 0
  {
    FilterCount(moviesData, x => Matches(x, Lower(search)), m);
  }

  /**
   * The shown movies are the catalog's matching movies in catalog order:
   * they sit at increasing catalog positions, and those positions are
   * exactly the ones whose movie matches.
   */
  lemma ShownInCatalogOrder(moviesData: seq<Movie>, search: string)
    ensures IsSubsequence(FilteredMovies(moviesData, search), moviesData)
    ensures exists idx ::
              && Embeds(FilteredMovies(moviesData, search), moviesData, idx)
              && forall i :: 0 <= i < |moviesData| ==> (i in idx <==> Matches(moviesData[i], Lower(search)))
  {
    var idx := Positions(moviesData, m => Matches(m, Lower(search)));
  }

  /**
   * A movie whose title, actors or genres contain the search text as typed,
   * letter case included, is shown.
   */
  lemma LiteralMatchShown(moviesData: seq<Movie>, search: string, m: Movie)
    requires m in moviesData
    requires Includes(m.titre, search) || Includes(m.acteurs, search) || Includes(m.genres, search)
    ensures m in FilteredMovies(moviesData, search)
  {
    if Includes(m.titre, search) {
      IncludesLower(m.titre, search);
    } else if Includes(m.acteurs, search) {
      IncludesLower(m.acteurs, search);
    } else {
      IncludesLower(m.genres, search);
    }
  }

  /** The search ignores case: `search` and its lower-cased form show the same movies. */
  lemma SearchIgnoresCase(moviesData: seq<Movie>, search: string)
    ensures FilteredMovies(moviesData, search) == FilteredMovies(moviesData, Lower(search))
  {
    LowerIdempotent(search);
  }

  /** Typing "ACTION" or "action" shows the same movies. */
  lemma SearchIgnoresCaseExample(moviesData: seq<Movie>)
    ensures FilteredMovies(moviesData, "ACTION") == FilteredMovies(moviesData, "action")
  {
  }

  /** The column count: 6, 4 or 3 on the web by width, 3 elsewhere. */
  function GetNumColumns(os: OS, width: real): (n: nat)
    ensures n == 3 || n == 4 || n == 6
    ensures n == 6 <==> os == Web && width > 1200.0
    ensures n == 4 <==> os == Web && 800.0 < width <= 1200.0
    ensures n == 3 <==> os != Web || width <= 800.0
  {
    if os == Web then
      if width > 1200.0 then 6
      else if width > 800.0 then 4
      else 3
    else 3
  }

  /** On the web a wider window never gets fewer columns. */
  lemma GetNumColumnsMonotone(w1: real, w2: real)
    requires w1 <= w2
    ensures GetNumColumns(Web, w1) <= GetNumColumns(Web, w2)
  {
  }

  /** Off the web the width does not matter. */
  lemma GetNumColumnsNativeFixed(w1: real, w2: real)
    ensures GetNumColumns(Native, w1) == GetNumColumns(Native, w2) == 3
  {
  }

  datatype Option<+T> = None | Some(value: T)

  /** The `selectedMovie` state: the movie whose details are shown, or none. */
  class DetailSelection {
    var selectedMovie: Option<Movie>

    /** `useState<Movie | null>(null)`: nothing is selected at first. */
    constructor ()
      ensures selectedMovie == None
      ensures !ModalVisible()
    {
      selectedMovie := None;
    }

    /** The detail modal is visible exactly when a movie is selected. */
    function ModalVisible(): (visible: bool)
      reads this
      ensures visible <==> exists m :: selectedMovie == Some(m)
    {
      assert selectedMovie.Some? ==> selectedMovie == Some(selectedMovie.value);
      selectedMovie.Some?
    }

    /** Tapping a card selects its movie, whatever was selected before. */
    method Select(item: Movie)
      modifies this
      ensures selectedMovie == Some(item)
      ensures ModalVisible()
    {
      selectedMovie := Some(item);
    }

    /** Closing the modal (its close button or a back request) clears the selection. */
    method Dismiss()
      modifies this
      ensures selectedMovie == None
      ensures !ModalVisible()
    {
      selectedMovie := None;
    }
  }

  /**
   * What a caller can conclude from the selection's contracts alone: select
   * then dismiss leaves nothing selected, the last of two selections wins,
   * and a second dismiss keeps nothing selected.
   */
  method SelectionScenario(m1: Movie, m2: Movie)
    returns (visibleAfterDismiss: bool, shownAfterTwoSelects: Option<Movie>, visibleAfterTwoDismisses: bool)
    ensures !visibleAfterDismiss
    ensures shownAfterTwoSelects == Some(m2)
    ensures !visibleAfterTwoDismisses
  {
    var s := new DetailSelection();
    s.Select(m1);
    s.Dismiss();
    visibleAfterDismiss := s.ModalVisible();
    s.Select(m1);
    s.Select(m2);
    shownAfterTwoSelects := s.selectedMovie;
    s.Dismiss();
    s.Dismiss();
    visibleAfterTwoDismisses := s.ModalVisible();
  }
}
