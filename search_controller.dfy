/**
 * The two search endpoints.  Each rejects a null query, or one that is shorter
 * than two characters once trimmed, with 400 and a fixed message; otherwise it
 * passes the untrimmed query, as both text arguments, with the page request to
 * a repository search (whose result page is an input here), and then empties,
 * in place, the movie list of every author it is about to return.
 */
module Search {
  import opened Wrappers

  const BadRequest: int := 400
  const QueryTooShortMessage: string := "Query must be at least 2 characters long"
  const DefaultPage: int := 0
  const DefaultSize: int := 10

  // ---------------------------------------------------------------------------
  // java.lang.String.trim
  // ---------------------------------------------------------------------------

  /** trim() removes characters at or below U+0020 (spaces and control characters). */
  predicate IsTrimmable(c: char) {
    c <= ' '
  }

  /** The number of trimmable characters at the front of `s`. */
  function LeadingBlanks(s: string): (n: nat)
    ensures n <= |s|
    ensures forall i :: 0 <= i < n ==> IsTrimmable(s[i])
    ensures n < |s| ==> !IsTrimmable(s[n])
  {
    if s == [] || !IsTrimmable(s[0]) then 0 else 1 + LeadingBlanks(s[1..])
  }

  /** The number of trimmable characters at the back of `s`. */
  function TrailingBlanks(s: string): (n: nat)
    ensures n <= |s|
    ensures forall i :: |s| - n <= i < |s| ==> IsTrimmable(s[i])
    ensures n < |s| ==> !IsTrimmable(s[|s| - n - 1])
  {
    if s == [] || !IsTrimmable(s[|s| - 1]) then 0 else 1 + TrailingBlanks(s[..|s| - 1])
  }

  /**
   * Java's trim(): the part of `s` left after removing every trimmable
   * character at either end; it starts and ends with a character that is not
   * trimmable, and everything cut off is trimmable.
   */
  function Trim(s: string): (r: string)
    ensures LeadingBlanks(s) + |r| <= |s|
    ensures r == s[LeadingBlanks(s)..LeadingBlanks(s) + |r|]
    ensures forall i :: 0 <= i < LeadingBlanks(s) ==> IsTrimmable(s[i])
    ensures forall i :: LeadingBlanks(s) + |r| <= i < |s| ==> IsTrimmable(s[i])
    ensures r != [] ==> !IsTrimmable(r[0]) && !IsTrimmable(r[|r| - 1])
  {
    var start := LeadingBlanks(s);
    var rest := s[start..];
    rest[..|rest| - TrailingBlanks(rest)]
  }

  // ---------------------------------------------------------------------------
  // java.lang.String.length, in UTF-16 code units
  // ---------------------------------------------------------------------------

  /** A character above U+FFFF, which a Java string holds as a surrogate pair. */
  predicate IsSupplementary(c: char) {
    c as int > 0xFFFF
  }

  /**
   * The length Java's length() reports: one code unit per character up to
   * U+FFFF, two per character above it.
   */
  function Utf16Length(s: string): (n: nat)
    ensures |s| <= n <= 2 * |s|
    ensures n == |s| <==> forall i :: 0 <= i < |s| ==> !IsSupplementary(s[i])
  {
    if s == [] then 0
    else
      var rest := Utf16Length(s[1..]);
      assert forall i :: 1 <= i < |s| ==> s[i] == s[1..][i - 1];
      (if IsSupplementary(s[0]) then 2 else 1) + rest
  }

  /** The positions of `s` that hold a character above U+FFFF. */
  ghost function SupplementaryPositions(s: string): set<int> {
    set i | 0 <= i < |s| && IsSupplementary(s[i])
  }

  /** Appending a character adds its own code units to the length. */
  lemma {:induction false} Utf16LengthAppend(s: string, c: char)
    ensures Utf16Length(s + [c]) == Utf16Length(s) + (if IsSupplementary(c) then 2 else 1)
    decreases |s|
  {
    if s == [] {
      assert ([] + [c])[1..] == [];
    } else {
      assert (s + [c])[0] == s[0] && (s + [c])[1..] == s[1..] + [c];
      Utf16LengthAppend(s[1..], c);
    }
  }

  /** Java's length() is the number of characters plus one per surrogate pair. */
  lemma {:induction false} Utf16LengthCountsPairs(s: string)
    ensures Utf16Length(s) == |s| + |SupplementaryPositions(s)|
    decreases |s|
  {
    if s != [] {
      var init := s[..|s| - 1];
      var last := s[|s| - 1];
      assert s == init + [last];
      Utf16LengthAppend(init, last);
      Utf16LengthCountsPairs(init);
      var pairs := SupplementaryPositions(init);
      assert |s| - 1 !in pairs;
      if IsSupplementary(last) {
        assert SupplementaryPositions(s) == pairs + {|s| - 1};
      } else {
        assert SupplementaryPositions(s) == pairs;
      }
    }
  }

  /** `q` has two characters, at different positions, that trim() would keep. */
  ghost predicate KeepsTwoCharacters(q: string) {
    exists i, j :: 0 <= i < j < |q| && !IsTrimmable(q[i]) && !IsTrimmable(q[j])
  }

  /** `q` has a character above U+FFFF, which trim() would keep. */
  ghost predicate KeepsSupplementary(q: string) {
    exists i :: 0 <= i < |q| && IsSupplementary(q[i])
  }

  /** A string of at most one character is two code units long only as a surrogate pair. */
  lemma ShortUtf16Length(t: string)
    requires |t| <= 1
    ensures Utf16Length(t) >= 2 <==> |t| == 1 && IsSupplementary(t[0])
  {
    if |t| == 1 {
      assert t[1..] == [];
    }
  }

  /** Every character trim() keeps lies within the trimmed slice. */
  lemma KeptLiesInTrim(q: string, i: int)
    requires 0 <= i < |q| && !IsTrimmable(q[i])
    ensures LeadingBlanks(q) <= i < LeadingBlanks(q) + |Trim(q)|
    ensures Trim(q)[i - LeadingBlanks(q)] == q[i]
  {
  }

  /**
   * What trim() leaves is at least two code units long exactly when trim()
   * keeps two characters, or keeps one that is a surrogate pair.
   */
  lemma TrimmedLengthAtLeastTwo(q: string)
    ensures Utf16Length(Trim(q)) >= 2 <==> KeepsTwoCharacters(q) || KeepsSupplementary(q)
  {
    var t := Trim(q);
    var start := LeadingBlanks(q);
    if |t| >= 2 {
      assert q[start] == t[0] && q[start + |t| - 1] == t[|t| - 1];
      assert !IsTrimmable(q[start]) && !IsTrimmable(q[start + |t| - 1]);
      assert KeepsTwoCharacters(q);
    } else {
      ShortUtf16Length(t);
      if |t| == 1 && IsSupplementary(t[0]) {
        assert q[start] == t[0];
        assert KeepsSupplementary(q);
      }
      if i, j :| 0 <= i < j < |q| && !IsTrimmable(q[i]) && !IsTrimmable(q[j]) {
        KeptLiesInTrim(q, i);
        KeptLiesInTrim(q, j);
        assert false;
      }
      if i :| 0 <= i < |q| && IsSupplementary(q[i]) {
        KeptLiesInTrim(q, i);
      }
    }
  }

  /**
   * The query check: present, and at least two code units long once trimmed;
   * that is, trim() keeps two characters, or one above U+FFFF.
   */
  predicate AcceptsQuery(query: Option<string>): (ok: bool)
    ensures ok <==> query.Some? && (KeepsTwoCharacters(query.value) || KeepsSupplementary(query.value))
  {
    if query.None? then false
    else
      TrimmedLengthAtLeastTwo(query.value);
      Utf16Length(Trim(query.value)) >= 2
  }

  lemma QueryExamples()
    ensures !AcceptsQuery(None)
    ensures !AcceptsQuery(Some(" a "))
    ensures !AcceptsQuery(Some("\U{E9}"))
    ensures AcceptsQuery(Some("ab"))
    ensures AcceptsQuery(Some(" \U{1F600} "))
  {
    assert !IsTrimmable("ab"[0]) && !IsTrimmable("ab"[1]);
    assert IsSupplementary(" \U{1F600} "[1]);
  }

  // ---------------------------------------------------------------------------
  // Validation and the arguments of the repository search
  // ---------------------------------------------------------------------------

  datatype PageRequest = PageRequest(page: int, size: int)

  /** The arguments of a derived search query: the two text arguments and the page request. */
  datatype SearchQuery = SearchQuery(first: string, second: string, pageable: PageRequest)

  datatype SearchError =
    | QueryRejected(status: int, message: string)  // the endpoint's own 400
    | PageRequestRejected                          // PageRequest.of throws on a negative page or a size below one

  /**
   * What an endpoint asks the repository for, or why it asks for nothing.  The
   * query check comes first; an omitted page is 0 and an omitted size is 10;
   * the query is passed on untrimmed, as both text arguments.
   */
  function ValidateSearch(query: Option<string>, page: Option<int>, size: Option<int>): (r: Result<SearchQuery, SearchError>)
    ensures !AcceptsQuery(query) <==> r == Err(QueryRejected(BadRequest, QueryTooShortMessage))
    ensures r.Ok? <==> AcceptsQuery(query) && page.GetOr(DefaultPage) >= 0 && size.GetOr(DefaultSize) >= 1
    ensures r.Ok? ==> r.value == SearchQuery(query.value, query.value, PageRequest(page.GetOr(DefaultPage), size.GetOr(DefaultSize)))
  {
    if query.None? || Utf16Length(Trim(query.value)) < 2 then Err(QueryRejected(BadRequest, QueryTooShortMessage))
    else
      var p := page.GetOr(DefaultPage);
      var n := size.GetOr(DefaultSize);
      if p < 0 || n < 1 then Err(PageRequestRejected)
      else Ok(SearchQuery(query.value, query.value, PageRequest(p, n)))
  }

  // ---------------------------------------------------------------------------
  // The entities and the in-place clearing of back-references
  // ---------------------------------------------------------------------------

  class Author {
    /** The author's movies; None is a null list. */
    var movies: Option<seq<Movie>>

    constructor (movies: Option<seq<Movie>>)
      ensures this.movies == movies
    {
      this.movies := movies;
    }
  }

  class Movie {
    var author: Author?

    constructor (author: Author?)
      ensures this.author == author
    {
      this.author := author;
    }
  }

  /** A list after clear(): a list becomes empty, a null list stays null. */
  function Emptied(list: Option<seq<Movie>>): Option<seq<Movie>> {
    if list.Some? then Some([]) else None
  }

  /** The authors of a page of movies. */
  function AuthorsOf(movies: seq<Movie>): set<Author>
    reads movies
  {
    set m | m in movies && m.author != null :: m.author
  }

  /**
   * The forEach over a page of movies: every author of a movie on the page ends
   * with its list emptied (or still null); no other object changes.
   */
  method ClearMovieBackReferences(movies: seq<Movie>)
    modifies AuthorsOf(movies)
    ensures forall a :: a in old(AuthorsOf(movies)) ==> a.movies == Emptied(old(a.movies))
  {
    ghost var authors := AuthorsOf(movies);
    var i := 0;
    while i < |movies|
      invariant 0 <= i <= |movies|
      invariant forall a :: a in AuthorsOf(movies[..i]) ==> a.movies == Emptied(old(a.movies))
      invariant forall a :: a in authors && a !in AuthorsOf(movies[..i]) ==> a.movies == old(a.movies)
    {
      var movie := movies[i];
      if movie.author != null && movie.author.movies.Some? {
        movie.author.movies := Some([]);
      }
      assert movies[..i + 1] == movies[..i] + [movie];
      i := i + 1;
    }
    assert movies[..i] == movies;
  }

  /** The forEach over a page of authors: each one's list is emptied (or still null). */
  method ClearAuthorMovieLists(authors: seq<Author>)
    modifies authors
    ensures forall a :: a in authors ==> a.movies == Emptied(old(a.movies))
  {
    var i := 0;
    while i < |authors|
      invariant 0 <= i <= |authors|
      invariant forall a :: a in authors[..i] ==> a.movies == Emptied(old(a.movies))
      invariant forall a :: a in authors && a !in authors[..i] ==> a.movies == old(a.movies)
    {
      var author := authors[i];
      if author.movies.Some? {
        author.movies := Some([]);
      }
      assert authors[..i + 1] == authors[..i] + [author];
      i := i + 1;
    }
    assert authors[..i] == authors;
  }

  /** An endpoint's answer: the page as the repository returned it, or an error. */
  datatype SearchResponse<T> = Found(page: seq<T>) | Failed(error: SearchError)

  /** The arguments an endpoint hands to the repository, if it gets that far. */
  function AskedFor(query: Option<string>, page: Option<int>, size: Option<int>): Option<SearchQuery> {
    match ValidateSearch(query, page, size)
    case Ok(q) => Some(q)
    case Err(_) => None
  }

  /**
   * GET /search/movies.  `results` is the page the repository returns for the
   * arguments the endpoint asks for.  A rejected request asks for nothing and
   * changes nothing; otherwise the page is answered unchanged, after the movie
   * lists of its movies' authors have been emptied.
   */
  method SearchMovies(query: Option<string>, page: Option<int>, size: Option<int>, results: seq<Movie>)
    returns (asked: Option<SearchQuery>, response: SearchResponse<Movie>)
    modifies if AskedFor(query, page, size).Some? then AuthorsOf(results) else {}
    ensures asked == AskedFor(query, page, size)
    ensures ValidateSearch(query, page, size).Err? ==> response == Failed(ValidateSearch(query, page, size).error)
    ensures asked.Some? ==>
              && response == Found(results)
              && forall a :: a in old(AuthorsOf(results)) ==> a.movies == Emptied(old(a.movies))
  {
    var validated := ValidateSearch(query, page, size);
    if validated.Err? {
      asked, response := None, Failed(validated.error);
    } else {
      asked := Some(validated.value);
      ClearMovieBackReferences(results);
      response := Found(results);
    }
  }

  /**
   * GET /search/authors: the same validation and message; otherwise the page is
   * answered unchanged after each author's movie list has been emptied.
   */
  method SearchAuthors(query: Option<string>, page: Option<int>, size: Option<int>, results: seq<Author>)
    returns (asked: Option<SearchQuery>, response: SearchResponse<Author>)
    modifies if AskedFor(query, page, size).Some? then results else []
    ensures asked == AskedFor(query, page, size)
    ensures ValidateSearch(query, page, size).Err? ==> response == Failed(ValidateSearch(query, page, size).error)
    ensures asked.Some? ==>
              && response == Found(results)
              && forall a :: a in results ==> a.movies == Emptied(old(a.movies))
  {
    var validated := ValidateSearch(query, page, size);
    if validated.Err? {
      asked, response := None, Failed(validated.error);
    } else {
      asked := Some(validated.value);
      ClearAuthorMovieLists(results);
      response := Found(results);
    }
  }
}
